/** Filling a template's placeholders one after another, as the renderer does,
    against putting all the paths in at once, as the template means it. */
module UnitTogether {
  import opened Wrappers
  import opened Text
  import opened SystemdReader
  import opened UnitEscape
  import opened UnitReading
  import opened UnitRender

  /** `@NAME@`, with neither an `@` nor a slash inside. */
  predicate IsName(p: string) {
    && |p| >= 3 && p[0] == '@' && p[|p| - 1] == '@' && IsPlainWord(p)
    && forall k :: 0 < k < |p| - 1 ==> p[k] != '@' && p[k] != '/'
  }

  /** Different names for absolute paths. */
  ghost predicate Hosts(values: seq<Value>) {
    && (forall k :: 0 <= k < |values| ==> IsName(values[k].placeholder) && values[k].raw != "" && values[k].raw[0] == '/')
    && (forall i, j :: 0 <= i < j < |values| ==> values[i].placeholder != values[j].placeholder)
  }

  // ---- all at once ----

  /** The first value whose placeholder opens the text, or the number of values. */
  function FirstMatch(text: string, values: seq<Value>): (k: nat)
    ensures k <= |values|
    ensures forall j :: 0 <= j < k ==> !(values[j].placeholder <= text)
    ensures k < |values| ==> values[k].placeholder <= text
  {
    if values == [] || values[0].placeholder <= text then 0 else 1 + FirstMatch(text, values[1..])
  }

  /** Every placeholder of the template replaced by its path; what a path holds is
      not looked at. */
  function Together(word: string, values: seq<Value>): string
    requires forall v :: v in values ==> v.placeholder != ""
    decreases |word|
  {
    if word == "" then ""
    else
      var k := FirstMatch(word, values);
      if k < |values| then values[k].raw + Together(word[|values[k].placeholder|..], values)
      else [word[0]] + Together(word[1..], values)
  }

  // ---- tidy templates ----

  datatype Seg = Plain(text: string) | Hole(k: nat)

  /** Text without an `@`, and placeholders each followed by a slash or the end. */
  ghost predicate Tidy(segs: seq<Seg>, n: nat) {
    forall i :: 0 <= i < |segs| ==> TidyAt(segs, n, i)
  }

  ghost predicate TidyAt(segs: seq<Seg>, n: nat, i: nat)
    requires i < |segs|
  {
    match segs[i]
    case Plain(t) => '@' !in t
    case Hole(k) => k < n && (i + 1 < |segs| ==> segs[i + 1].Plain? && Slashed(segs[i + 1].text))
  }

  predicate Slashed(t: string) { t != "" && t[0] == '/' }

  function Put(seg: Seg, fill: seq<string>): string {
    match seg
    case Plain(t) => t
    case Hole(k) => if k < |fill| then fill[k] else ""
  }

  function Lay(segs: seq<Seg>, fill: seq<string>): string {
    if segs == [] then "" else Put(segs[0], fill) + Lay(segs[1..], fill)
  }

  function Names(values: seq<Value>): (r: seq<string>)
    ensures |r| == |values| && forall k :: 0 <= k < |r| ==> r[k] == values[k].placeholder
  {
    seq(|values|, k requires 0 <= k < |values| => values[k].placeholder)
  }

  function Raws(values: seq<Value>): (r: seq<string>)
    ensures |r| == |values| && forall k :: 0 <= k < |r| ==> r[k] == values[k].raw
  {
    seq(|values|, k requires 0 <= k < |values| => values[k].raw)
  }

  ghost predicate IsTidy(word: string, values: seq<Value>) {
    exists segs :: Tidy(segs, |values|) && word == Lay(segs, Names(values))
  }

  // ---- searching a concatenation ----

  /** No occurrence of `p` runs over the seam. */
  ghost predicate Seam(a: string, b: string, p: string) {
    p != "" && (b == "" || b[0] !in p || p[0] !in a)
  }

  lemma {:induction false} RunsOver(a: string, b: string, p: string)
    requires a != "" && p <= a + b && |p| > |a|
    ensures b != "" && p[0] in a && b[0] in p
  {
    assert p[0] == (a + b)[0] == a[0] && p[|a|] == (a + b)[|a|] == b[0];
  }

  lemma {:induction false} FrontAtSeam(a: string, b: string, p: string)
    requires Seam(a, b, p) && a != ""
    ensures p <= a + b <==> p <= a
  {
    if p <= a + b && |p| > |a| {
      RunsOver(a, b, p);
    }
  }

  lemma {:induction false} ReplaceConcat(a: string, b: string, p: string, r: string)
    requires Seam(a, b, p)
    ensures Replace(a + b, p, r) == Replace(a, p, r) + Replace(b, p, r)
    decreases |a|
  {
    if a == "" {
      assert a + b == b;
    } else {
      FrontAtSeam(a, b, p);
      if p <= a {
        assert (a + b)[|p|..] == a[|p|..] + b;
        ReplaceConcat(a[|p|..], b, p, r);
      } else {
        assert (a + b)[1..] == a[1..] + b;
        ReplaceConcat(a[1..], b, p, r);
      }
    }
  }

  lemma {:induction false} ContainsConcat(a: string, b: string, p: string)
    requires Seam(a, b, p)
    ensures Contains(a + b, p) <==> Contains(a, p) || Contains(b, p)
    decreases |a|
  {
    if a == "" {
      assert a + b == b;
    } else {
      FrontAtSeam(a, b, p);
      assert (a + b)[1..] == a[1..] + b;
      ContainsConcat(a[1..], b, p);
    }
  }

  lemma {:induction false} NotContained(s: string, p: string, r: string)
    requires p != "" && !Contains(s, p)
    ensures Replace(s, p, r) == s
    decreases |s|
  {
    if s != "" {
      NotContained(s[1..], p, r);
    }
  }

  lemma {:induction false} WithoutFirstCharacter(s: string, p: string)
    requires p != "" && p[0] !in s
    ensures !Contains(s, p)
    decreases |s|
  {
    if s != "" {
      WithoutFirstCharacter(s[1..], p);
    }
  }

  // ---- names ----

  lemma {:induction false} EndsMeet(p: string, q: string, rest: string)
    requires p != "" && q != "" && p <= q + rest
    ensures |p| <= |q| ==> q[|p| - 1] == p[|p| - 1]
    ensures |q| <= |p| ==> p[|q| - 1] == q[|q| - 1]
    ensures |p| == |q| ==> p == q
  {
    var s := q + rest;
    assert p == s[..|p|] && q == s[..|q|];
  }

  lemma {:induction false} NameOpens(p: string, q: string, rest: string)
    requires IsName(p) && IsName(q) && p <= q + rest
    ensures p == q
  {
    EndsMeet(p, q, rest);
  }

  /** A name is found in another only when it is that name. */
  lemma {:induction false} NameInName(p: string, q: string)
    requires IsName(p) && IsName(q)
    ensures Contains(q, p) <==> p == q
  {
    assert q + "" == q;
    if p <= q {
      NameOpens(p, q, "");
    }
    var inside, last := q[1..|q| - 1], q[|q| - 1..];
    assert q[1..] == inside + last;
    assert '@' !in inside;
    WithoutFirstCharacter(inside, p);
    assert last[1..] == "" && !Contains(last, p);
    assert last[0] == '@';
    ContainsConcat(inside, last, p);
  }

  // ---- filling a tidy template ----

  lemma {:induction false} TidyRest(segs: seq<Seg>, n: nat)
    requires segs != [] && Tidy(segs, n)
    ensures Tidy(segs[1..], n)
  {
    var rest := segs[1..];
    forall i | 0 <= i < |rest|
      ensures TidyAt(rest, n, i)
    {
      assert TidyAt(segs, n, i + 1);
    }
  }

  /** Between a piece of a tidy template and what follows, no name runs over. */
  lemma {:induction false} TidySeam(segs: seq<Seg>, fill: seq<string>, p: string)
    requires segs != [] && Tidy(segs, |fill|) && IsName(p)
    ensures Seam(Put(segs[0], fill), Lay(segs[1..], fill), p)
  {
    assert TidyAt(segs, |fill|, 0);
    if segs[0].Hole? && |segs| > 1 {
      assert segs[1..][0] == segs[1];
      var rest := Lay(segs[1..], fill);
      assert rest[0] == '/';
    }
  }

  function ReplaceEach(fill: seq<string>, p: string, r: string): (f: seq<string>)
    requires p != ""
    ensures |f| == |fill| && forall k :: 0 <= k < |f| ==> f[k] == Replace(fill[k], p, r)
  {
    seq(|fill|, k requires 0 <= k < |fill| => Replace(fill[k], p, r))
  }

  /** Replacing a name in a tidy text replaces it in each path on its own. */
  lemma {:induction false} ReplaceLay(segs: seq<Seg>, fill: seq<string>, p: string, r: string)
    requires Tidy(segs, |fill|) && IsName(p)
    ensures Replace(Lay(segs, fill), p, r) == Lay(segs, ReplaceEach(fill, p, r))
    decreases |segs|
  {
    if segs != [] {
      TidyRest(segs, |fill|);
      ReplaceLay(segs[1..], fill, p, r);
      TidySeam(segs, fill, p);
      ReplaceConcat(Put(segs[0], fill), Lay(segs[1..], fill), p, r);
      if segs[0].Plain? {
        assert TidyAt(segs, |fill|, 0);
        WithoutFirstCharacter(segs[0].text, p);
        NotContained(segs[0].text, p, r);
      }
    }
  }

  /** A tidy template mentions exactly the placeholders it has. */
  lemma {:induction false} MentionsItsHoles(segs: seq<Seg>, values: seq<Value>, k: nat)
    requires Hosts(values) && Tidy(segs, |values|) && k < |values|
    ensures Contains(Lay(segs, Names(values)), values[k].placeholder) <==> Hole(k) in segs
    decreases |segs|
  {
    if segs != [] {
      var p := values[k].placeholder;
      TidyRest(segs, |values|);
      MentionsItsHoles(segs[1..], values, k);
      TidySeam(segs, Names(values), p);
      ContainsConcat(Put(segs[0], Names(values)), Lay(segs[1..], Names(values)), p);
      assert segs == [segs[0]] + segs[1..];
      assert TidyAt(segs, |values|, 0);
      PieceMentions(segs[0], values, k);
    }
  }

  lemma {:induction false} PieceMentions(seg: Seg, values: seq<Value>, k: nat)
    requires Hosts(values) && k < |values| && (seg.Plain? ==> '@' !in seg.text) && (seg.Hole? ==> seg.k < |values|)
    ensures Contains(Put(seg, Names(values)), values[k].placeholder) <==> seg == Hole(k)
  {
    match seg
    case Plain(t) => WithoutFirstCharacter(t, values[k].placeholder);
    case Hole(j) => NameInName(values[k].placeholder, values[j].placeholder);
  }

  /** Only the paths that are put in make a difference. */
  lemma {:induction false} LayAgrees(segs: seq<Seg>, f: seq<string>, g: seq<string>)
    requires |f| == |g| && forall k :: 0 <= k < |f| && Hole(k) in segs ==> f[k] == g[k]
    ensures Lay(segs, f) == Lay(segs, g)
    decreases |segs|
  {
    if segs != [] {
      assert segs == [segs[0]] + segs[1..];
      LayAgrees(segs[1..], f, g);
    }
  }

  ghost predicate DifferAt(a: string, b: string, x: nat) {
    x < |a| && x < |b| && a[x] != b[x]
  }

  /** Paths that differ somewhere make the texts differ. */
  lemma {:induction false} LayDiffers(segs: seq<Seg>, f: seq<string>, g: seq<string>, k: nat, x: nat)
    requires |f| == |g| && k < |f| && DifferAt(f[k], g[k], x) && Hole(k) in segs
    requires forall j :: 0 <= j < |f| && j != k ==> f[j] == g[j]
    ensures Lay(segs, f) != Lay(segs, g)
    decreases |segs|
  {
    var a, b := Put(segs[0], f), Put(segs[0], g);
    var u, v := Lay(segs[1..], f), Lay(segs[1..], g);
    if segs[0] == Hole(k) {
      assert (a + u)[x] == a[x] && (b + v)[x] == b[x];
    } else {
      assert segs == [segs[0]] + segs[1..];
      LayDiffers(segs[1..], f, g, k, x);
      assert a == b;
      assert (a + u)[|a|..] == u && (a + v)[|a|..] == v;
    }
  }

  /** Where a name is first replaced by a path, an `@` becomes a slash. */
  lemma {:induction false} FirstHit(s: string, p: string, r: string) returns (x: nat)
    requires p != "" && r != "" && p[0] != r[0] && Contains(s, p)
    ensures DifferAt(Replace(s, p, r), s, x)
    decreases |s|
  {
    if p <= s {
      x := 0;
    } else {
      var y := FirstHit(s[1..], p, r);
      x := y + 1;
    }
  }

  lemma {:induction false} FilledStep(segs: seq<Seg>, values: seq<Value>, n: nat, fill: seq<string>)
    requires Hosts(values) && Tidy(segs, |values|) && n < |values| && |fill| == |values|
    requires forall v :: v in values ==> v.placeholder != ""
    requires Filled(Lay(segs, Names(values)), values, n) == Lay(segs, fill)
    ensures Filled(Lay(segs, Names(values)), values, n + 1) ==
      Lay(segs, if Hole(n) in segs then ReplaceEach(fill, values[n].placeholder, values[n].raw) else fill)
  {
    MentionsItsHoles(segs, values, n);
    ReplaceLay(segs, fill, values[n].placeholder, values[n].raw);
  }

  lemma {:induction false} WholeName(p: string, r: string)
    requires p != ""
    ensures Replace(p, p, r) == r
  {
    assert p[|p|..] == "";
  }

  /** One path only: nothing can get in its way. */
  lemma {:induction false} OneFilled(segs: seq<Seg>, values: seq<Value>)
    requires Hosts(values) && Placeholders(values) && |values| == 1 && Tidy(segs, 1)
    ensures FilledIn(Lay(segs, Names(values)), values) == Lay(segs, Raws(values))
  {
    FilledStep(segs, values, 0, Names(values));
    WholeName(values[0].placeholder, values[0].raw);
    if Hole(0) in segs {
      LayAgrees(segs, ReplaceEach(Names(values), values[0].placeholder, values[0].raw), Raws(values));
    } else {
      LayAgrees(segs, Names(values), Raws(values));
    }
  }

  /** Two paths: the second is also put into the first, where that names it. */
  lemma {:induction false} TwoFilled(segs: seq<Seg>, values: seq<Value>)
    requires Hosts(values) && Placeholders(values) && |values| == 2 && Tidy(segs, 2)
    ensures FilledIn(Lay(segs, Names(values)), values) ==
      Lay(segs, [if Hole(1) in segs then Replace(values[0].raw, values[1].placeholder, values[1].raw) else values[0].raw, values[1].raw])
  {
    var p0, r0, p1, r1 := values[0].placeholder, values[0].raw, values[1].placeholder, values[1].raw;
    FilledStep(segs, values, 0, Names(values));
    WholeName(p0, r0);
    WholeName(p1, r1);
    NameInName(p0, p1);
    NotContained(p1, p0, r0);
    var first := [r0, p1];
    if Hole(0) in segs {
      LayAgrees(segs, ReplaceEach(Names(values), p0, r0), first);
    } else {
      LayAgrees(segs, Names(values), first);
    }
    FilledStep(segs, values, 1, first);
    var goal := [if Hole(1) in segs then Replace(r0, p1, r1) else r0, r1];
    if Hole(1) in segs {
      LayAgrees(segs, ReplaceEach(first, p1, r1), goal);
    } else {
      LayAgrees(segs, first, goal);
    }
  }

  // ---- at once, over a tidy template ----

  lemma {:induction false} TogetherPlain(t: string, rest: string, values: seq<Value>)
    requires Hosts(values) && Placeholders(values) && '@' !in t
    ensures Together(t + rest, values) == t + Together(rest, values)
    decreases |t|
  {
    if t == "" {
      assert t + rest == rest;
    } else {
      TogetherPlain(t[1..], rest, values);
      HeadApart(t, rest);
      HeadApart(t, Together(rest, values));
    }
  }

  lemma {:induction false} HeadApart(t: string, x: string)
    requires t != ""
    ensures t + x == [t[0]] + (t[1..] + x)
  {
  }

  lemma {:induction false} TogetherName(k: nat, rest: string, values: seq<Value>)
    requires Hosts(values) && Placeholders(values) && k < |values|
    ensures Together(values[k].placeholder + rest, values) == values[k].raw + Together(rest, values)
  {
    var text := values[k].placeholder + rest;
    var j := FirstMatch(text, values);
    assert values[k].placeholder <= text;
    NameOpens(values[j].placeholder, values[k].placeholder, rest);
    assert text[|values[k].placeholder|..] == rest;
  }

  lemma {:induction false} TogetherLay(segs: seq<Seg>, values: seq<Value>)
    requires Hosts(values) && Placeholders(values) && Tidy(segs, |values|)
    ensures Together(Lay(segs, Names(values)), values) == Lay(segs, Raws(values))
    decreases |segs|
  {
    if segs != [] {
      TidyRest(segs, |values|);
      TogetherLay(segs[1..], values);
      assert TidyAt(segs, |values|, 0);
      match segs[0]
      case Plain(t) => TogetherPlain(t, Lay(segs[1..], Names(values)), values);
      case Hole(k) => TogetherName(k, Lay(segs[1..], Names(values)), values);
    }
  }

  /** The word mentions both paths, and the first path holds the second's name. */
  predicate Mixes(word: string, values: seq<Value>) {
    && |values| == 2 && Contains(word, values[0].placeholder) && Contains(word, values[1].placeholder)
    && Contains(values[0].raw, values[1].placeholder)
  }

  lemma {:induction false} TogetherOrMixed(segs: seq<Seg>, values: seq<Value>)
    requires Hosts(values) && Placeholders(values) && |values| == 2 && Tidy(segs, 2)
    ensures FilledIn(Lay(segs, Names(values)), values) == Lay(segs, Raws(values)) <==> !Mixes(Lay(segs, Names(values)), values)
  {
    var r0, p1, r1 := values[0].raw, values[1].placeholder, values[1].raw;
    TwoFilled(segs, values);
    MentionsItsHoles(segs, values, 0);
    MentionsItsHoles(segs, values, 1);
    var got, want := [if Hole(1) in segs then Replace(r0, p1, r1) else r0, r1], Raws(values);
    assert want == [r0, r1];
    if Hole(1) in segs && Contains(r0, p1) {
      if Hole(0) in segs {
        var x := FirstHit(r0, p1, r1);
        LayDiffers(segs, got, want, 0, x);
      } else {
        LayAgrees(segs, got, want);
      }
    } else {
      if Hole(1) in segs {
        NotContained(r0, p1, r1);
      }
      LayAgrees(segs, got, want);
    }
  }

  /** One after another puts in what putting them in at once does, exactly when the
      word does not mention both with the first path naming the second. */
  lemma {:induction false} FillsTogetherExactly(word: string, values: seq<Value>)
    requires Hosts(values) && |values| <= 2 && IsTidy(word, values)
    ensures Placeholders(values) && (FilledIn(word, values) == Together(word, values) <==> !Mixes(word, values))
  {
    var segs :| Tidy(segs, |values|) && word == Lay(segs, Names(values));
    TogetherLay(segs, values);
    if values == [] {
      assert Names(values) == Raws(values);
    } else if |values| == 1 {
      OneFilled(segs, values);
    } else {
      TogetherOrMixed(segs, values);
    }
  }

  // ---- whole lines ----

  function TogetherAll(words: seq<string>, values: seq<Value>): (r: seq<string>)
    requires forall v :: v in values ==> v.placeholder != ""
    ensures |r| == |words| && forall k :: 0 <= k < |r| ==> r[k] == Together(words[k], values)
  {
    seq(|words|, k requires 0 <= k < |words| => Together(words[k], values))
  }

  /** What a directive of the template stands for, with the host's own paths. */
  function Intended(kind: Kind, value: string, values: seq<Value>): Setting
    requires forall v :: v in values ==> v.placeholder != ""
  {
    match kind
    case Verbatim => Path(Together(value, values))
    case WordList => Assignments(TogetherAll(Words(value), values))
    case _ => Run(MeantCommand(Words(value), TogetherAll(Words(value), values), values))
  }

  /** The pieces that are filled each on their own. */
  function Pieces(kind: Kind, value: string): seq<string> {
    if kind == Verbatim then [value] else Words(value)
  }

  ghost predicate AllTidy(pieces: seq<string>, values: seq<Value>) {
    forall k :: 0 <= k < |pieces| ==> IsTidy(pieces[k], values) && !Mixes(pieces[k], values)
  }

  lemma {:induction false} MeantIsIntended(kind: Kind, value: string, values: seq<Value>)
    requires Hosts(values) && |values| <= 2 && AllTidy(Pieces(kind, value), values)
    ensures Placeholders(values) && Meant(kind, value, values) == Intended(kind, value, values)
  {
    var pieces := Pieces(kind, value);
    forall k | 0 <= k < |pieces|
      ensures FilledIn(pieces[k], values) == Together(pieces[k], values)
    {
      FillsTogetherExactly(pieces[k], values);
    }
    if kind == Verbatim {
      assert pieces[0] == value;
    } else {
      assert FilledAll(Words(value), values) == TogetherAll(Words(value), values);
    }
  }

  /** An accepted line of a tidy template reads as the template with the host's own
      paths in it, exactly when a unit line can say that. */
  lemma {:induction false} LineSaysItsPaths(line: string, values: seq<Value>)
    requires Hosts(values) && |values| <= 2 && Placeholders(values) && IsPlainDirective(line) && Accepted(line, values)
    requires AllTidy(Pieces(KindOf(KeyOf(line)), ValueOf(line)), values)
    ensures var kind := KindOf(KeyOf(line));
      var intended := Intended(kind, ValueOf(line), values);
      ReadDirective(line[..Find(line, '=')] + ['='] + Body(kind, ValueOf(line), values)) == Some(Directive(KeyOf(line), intended))
      <==> Sayable(intended)
  {
    LineReadsBack(line, values);
    MeantIsIntended(KindOf(KeyOf(line)), ValueOf(line), values);
  }
}
