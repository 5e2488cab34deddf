/** Newline framing of a byte stream, shared by the worker's stdin reader and
    its event-file forwarder. */
module Lines {
  newtype Byte = b: int | 0 <= b < 256
  type Bytes = seq<Byte>

  const NEWLINE: Byte := 10

  /** Position of the first newline, or the length when there is none. */
  function FirstNewline(s: Bytes): (i: nat)
    ensures i <= |s|
    ensures forall j :: 0 <= j < i ==> s[j] != NEWLINE
    ensures i < |s| ==> s[i] == NEWLINE
  {
    if s == [] || s[0] == NEWLINE then 0 else 1 + FirstNewline(s[1..])
  }

  /** The lines of `s` that have been terminated, without their newlines. */
  function Complete(s: Bytes): seq<Bytes> {
    var i := FirstNewline(s);
    if i == |s| then [] else [s[..i]] + Complete(s[i + 1..])
  }

  /** The bytes after the last newline. */
  function Rest(s: Bytes): Bytes {
    var i := FirstNewline(s);
    if i == |s| then s else Rest(s[i + 1..])
  }

  /** Every line followed by its newline. */
  function Terminated(lines: seq<Bytes>): Bytes {
    if lines == [] then [] else lines[0] + [NEWLINE] + Terminated(lines[1..])
  }

  ghost predicate NewlineFree(s: Bytes) {
    forall j :: 0 <= j < |s| ==> s[j] != NEWLINE
  }

  lemma {:induction false} FirstNewlineIs(s: Bytes, i: nat)
    requires i <= |s| && NewlineFree(s[..i]) && (i < |s| ==> s[i] == NEWLINE)
    ensures FirstNewline(s) == i
  {
    assert forall j :: 0 <= j < i ==> s[j] == s[..i][j];
  }

  /** Framing is lossless: `Complete` and `Rest` are the one way to cut `s`
      into newline-free lines and a newline-free remainder. */
  lemma {:induction false} FramingIsUnique(s: Bytes, lines: seq<Bytes>, rest: Bytes)
    requires forall l :: l in lines ==> NewlineFree(l)
    requires NewlineFree(rest)
    ensures s == Terminated(lines) + rest ==> lines == Complete(s) && rest == Rest(s)
    decreases |lines|
  {
    if s == Terminated(lines) + rest {
      if lines == [] {
        assert s == rest;
        FirstNewlineIs(s, |s|);
      } else {
        var head, tail := lines[0], lines[1..];
        var after := Terminated(tail) + rest;
        assert s == head + [NEWLINE] + after;
        assert s[..|head|] == head && s[|head| + 1..] == after;
        FirstNewlineIs(s, |head|);
        FramingIsUnique(after, tail, rest);
        assert lines == [head] + tail;
      }
    }
  }

  lemma {:induction false} TerminatedCons(line: Bytes, lines: seq<Bytes>)
    ensures Terminated([line] + lines) == line + [NEWLINE] + Terminated(lines)
  {
    assert ([line] + lines)[1..] == lines;
  }

  lemma {:induction false} Associates(a: Bytes, b: Bytes, c: Bytes)
    ensures (a + b) + c == a + (b + c)
  {
  }

  lemma {:induction false} FramingIsLossless(s: Bytes)
    ensures Terminated(Complete(s)) + Rest(s) == s
    decreases |s|
  {
    var i := FirstNewline(s);
    if i < |s| {
      var head, tail := s[..i] + [NEWLINE], s[i + 1..];
      FramingIsLossless(tail);
      TerminatedCons(s[..i], Complete(tail));
      Associates(head, Terminated(Complete(tail)), Rest(tail));
    }
  }

  lemma {:induction false} FramingIsClean(s: Bytes)
    ensures NewlineFree(Rest(s))
    ensures forall l :: l in Complete(s) ==> NewlineFree(l)
    decreases |s|
  {
    var i := FirstNewline(s);
    if i < |s| {
      FramingIsClean(s[i + 1..]);
    }
  }

  /** Reading a stream in two pieces, carrying the unfinished line over, gives
      the lines of the whole stream. */
  lemma {:induction false} FramingIsIncremental(a: Bytes, b: Bytes)
    ensures Complete(a + b) == Complete(a) + Complete(Rest(a) + b)
    ensures Rest(a + b) == Rest(Rest(a) + b)
    decreases |a|
  {
    var i := FirstNewline(a);
    if i == |a| {
      assert Complete(a) == [];
    } else {
      assert (a + b)[..i] == a[..i];
      FirstNewlineIs(a + b, i);
      assert (a + b)[i + 1..] == a[i + 1..] + b;
      FramingIsIncremental(a[i + 1..], b);
    }
  }
}
