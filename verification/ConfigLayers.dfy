/** Layered configuration: tables merged key by key, a record of which layer
    set each key, and the cut made in a layer the repository itself carries. */
module ConfigLayers {
  import opened Text
  import opened Wrappers

  type Scalar = string
  type Path = seq<string>

  /** A parsed document. Lists are scalars here: a later one replaces an
      earlier one whole. */
  datatype Value = Leaf(scalar: Scalar) | Table(fields: map<string, Value>)

  datatype Layer = Layer(name: string, tree: Value)

  const EMPTY := Table(map[])

  function Lookup(v: Value, p: Path): Option<Value>
    decreases |p|
  {
    if p == [] then Some(v)
    else if v.Table? && p[0] in v.fields then Lookup(v.fields[p[0]], p[1..])
    else None
  }

  /** What the flattened tree holds at `p`. */
  function LeafAt(v: Value, p: Path): Option<Scalar> {
    match Lookup(v, p)
    case Some(Leaf(x)) => Some(x)
    case _ => None
  }

  function DeepMerge(base: Value, over: Value): Value
    requires base.Table? && over.Table?
    decreases over
  {
    Table(map k | k in base.fields.Keys + over.fields.Keys ::
      if k !in over.fields then base.fields[k]
      else if over.fields[k].Table? && k in base.fields && base.fields[k].Table?
           then DeepMerge(base.fields[k], over.fields[k])
      else over.fields[k])
  }

  /** Whether merging `v` on top decides what is at `p`: it has something there,
      or a scalar on the way. */
  predicate Decides(v: Value, p: Path)
    decreases |p|
  {
    p == [] || v.Leaf? || (p[0] in v.fields && Decides(v.fields[p[0]], p[1..]))
  }

  lemma {:induction false} LeafDecides(v: Value, p: Path)
    requires LeafAt(v, p).Some?
    ensures Decides(v, p)
    decreases |p|
  {
    if p != [] {
      LeafDecides(v.fields[p[0]], p[1..]);
    }
  }

  lemma {:induction false} LeafInside(v: Value, p: Path)
    requires p != []
    ensures LeafAt(v, p) == if v.Table? && p[0] in v.fields then LeafAt(v.fields[p[0]], p[1..]) else None
  {
  }

  lemma {:induction false} MergedLeaf(base: Value, over: Value, p: Path)
    requires base.Table? && over.Table? && p != []
    ensures LeafAt(DeepMerge(base, over), p) == if Decides(over, p) then LeafAt(over, p) else LeafAt(base, p)
    decreases |p|
  {
    var k, rest := p[0], p[1..];
    LeafInside(DeepMerge(base, over), p);
    LeafInside(over, p);
    LeafInside(base, p);
    if k in over.fields {
      if LeafAt(over.fields[k], rest).Some? {
        LeafDecides(over.fields[k], rest);
      }
      if rest != [] {
        if k in base.fields {
          LeafInside(base.fields[k], rest);
          if over.fields[k].Table? && base.fields[k].Table? {
            MergedLeaf(base.fields[k], over.fields[k], rest);
          }
        }
      }
    }
  }

  // ---- the layers ----

  ghost predicate Tables(layers: seq<Layer>) {
    forall i :: 0 <= i < |layers| ==> layers[i].tree.Table?
  }

  function MergeAll(layers: seq<Layer>): (merged: Value)
    requires Tables(layers)
    ensures merged.Table?
  {
    if layers == [] then EMPTY
    else DeepMerge(MergeAll(layers[..|layers| - 1]), layers[|layers| - 1].tree)
  }

  /** The last layer whose flattening contains `p`, or -1. */
  function SourceIndex(layers: seq<Layer>, p: Path): (i: int)
    ensures -1 <= i < |layers|
    ensures i >= 0 ==> LeafAt(layers[i].tree, p).Some?
    ensures forall j :: i < j < |layers| ==> LeafAt(layers[j].tree, p).None?
  {
    if layers == [] then -1
    else if LeafAt(layers[|layers| - 1].tree, p).Some? then |layers| - 1
    else SourceIndex(layers[..|layers| - 1], p)
  }

  /** A layer after `i` replaces what is at `p` without setting it. */
  ghost predicate CutAfter(layers: seq<Layer>, i: int, p: Path)
    requires i >= -1
  {
    exists j :: i < j < |layers| && Decides(layers[j].tree, p)
  }

  /** A key is in the merged configuration exactly when some layer sets it and no
      later layer replaces it by, or hides it under, something else; and then it
      has the value of the last layer that sets it. */
  lemma {:induction false} LastLayerWins(layers: seq<Layer>, p: Path)
    requires Tables(layers) && p != []
    ensures var i := SourceIndex(layers, p);
      && (LeafAt(MergeAll(layers), p).Some? <==> i >= 0 && !CutAfter(layers, i, p))
      && (LeafAt(MergeAll(layers), p).Some? ==> LeafAt(MergeAll(layers), p) == LeafAt(layers[i].tree, p))
    decreases |layers|
  {
    if layers != [] {
      var front, last := layers[..|layers| - 1], layers[|layers| - 1];
      LastLayerWins(front, p);
      MergedLeaf(MergeAll(front), last.tree, p);
      var i := SourceIndex(layers, p);
      if LeafAt(last.tree, p).Some? {
        LeafDecides(last.tree, p);
      } else {
        assert i == SourceIndex(front, p);
        if CutAfter(front, i, p) {
          var j :| i < j < |front| && Decides(front[j].tree, p);
          assert Decides(layers[j].tree, p);
        }
        if Decides(last.tree, p) {
          assert Decides(layers[|layers| - 1].tree, p);
        }
        if CutAfter(layers, i, p) && !Decides(last.tree, p) {
          var j :| i < j < |layers| && Decides(layers[j].tree, p);
          assert Decides(front[j].tree, p);
        }
      }
    }
  }

  /** Every key of `lower` is set again in `upper`, so that merging adds nothing. */
  predicate Covers(upper: Value, lower: Value)
    requires upper.Table? && lower.Table?
    decreases upper
  {
    forall k :: k in lower.fields ==>
      k in upper.fields && (upper.fields[k].Table? && lower.fields[k].Table? ==> Covers(upper.fields[k], lower.fields[k]))
  }

  lemma {:induction false} CoveredAddsNothing(lower: Value, upper: Value)
    requires lower.Table? && upper.Table?
    ensures DeepMerge(lower, upper) == upper <==> Covers(upper, lower)
    decreases upper
  {
    var merged := DeepMerge(lower, upper);
    forall k | k in upper.fields && k in lower.fields && upper.fields[k].Table? && lower.fields[k].Table?
      ensures merged.fields[k] == upper.fields[k] <==> Covers(upper.fields[k], lower.fields[k])
    {
      CoveredAddsNothing(lower.fields[k], upper.fields[k]);
    }
    if merged == upper {
      forall k | k in lower.fields
        ensures k in upper.fields
      {
        assert k in merged.fields;
      }
    }
    if Covers(upper, lower) {
      assert merged.fields == upper.fields;
    }
  }

  /** Wherever all three set a key and the outer two have tables there: the middle
      one has a table too, and the tables group; or it cuts the lower table off,
      and the upper one sets all of that again. */
  predicate Groupable(a: Value, b: Value, c: Value)
    requires a.Table? && b.Table? && c.Table?
    decreases c
  {
    forall k :: k in a.fields && k in b.fields && k in c.fields && a.fields[k].Table? && c.fields[k].Table? ==>
      if b.fields[k].Table? then Groupable(a.fields[k], b.fields[k], c.fields[k]) else Covers(c.fields[k], a.fields[k])
  }

  /** Merging three layers gives the same either way exactly when they group. */
  lemma {:induction false} MergeAssociatesExactly(a: Value, b: Value, c: Value)
    requires a.Table? && b.Table? && c.Table?
    ensures DeepMerge(DeepMerge(a, b), c) == DeepMerge(a, DeepMerge(b, c)) <==> Groupable(a, b, c)
    decreases c, 1
  {
    var left, right := DeepMerge(DeepMerge(a, b), c), DeepMerge(a, DeepMerge(b, c));
    assert left.fields.Keys == right.fields.Keys;
    forall k | k in left.fields
      ensures left.fields[k] == right.fields[k] <==> GroupsAt(a, b, c, k)
    {
      GroupsAtKey(a, b, c, k);
    }
    if Groupable(a, b, c) {
      assert forall k :: k in left.fields ==> GroupsAt(a, b, c, k);
      assert left.fields == right.fields;
    }
    if left == right {
      forall k | k in a.fields && k in b.fields && k in c.fields && a.fields[k].Table? && c.fields[k].Table?
        ensures if b.fields[k].Table? then Groupable(a.fields[k], b.fields[k], c.fields[k]) else Covers(c.fields[k], a.fields[k])
      {
        assert k in left.fields;
        assert GroupsAt(a, b, c, k);
      }
    }
  }

  ghost predicate GroupsAt(a: Value, b: Value, c: Value, k: string)
    requires a.Table? && b.Table? && c.Table?
  {
    k in a.fields && k in b.fields && k in c.fields && a.fields[k].Table? && c.fields[k].Table? ==>
      if b.fields[k].Table? then Groupable(a.fields[k], b.fields[k], c.fields[k]) else Covers(c.fields[k], a.fields[k])
  }

  lemma {:induction false} GroupsAtKey(a: Value, b: Value, c: Value, k: string)
    requires a.Table? && b.Table? && c.Table? && (k in a.fields || k in b.fields || k in c.fields)
    ensures DeepMerge(DeepMerge(a, b), c).fields[k] == DeepMerge(a, DeepMerge(b, c)).fields[k] <==> GroupsAt(a, b, c, k)
    decreases c, 0
  {
    if k in a.fields && k in b.fields && k in c.fields && a.fields[k].Table? && c.fields[k].Table? {
      if b.fields[k].Table? {
        MergeAssociatesExactly(a.fields[k], b.fields[k], c.fields[k]);
      } else {
        CoveredAddsNothing(a.fields[k], c.fields[k]);
      }
    }
  }

  /** Three layers that do not group: the middle one replaces a table by a scalar
      and the upper one brings back a table without its key. */
  lemma {:induction false} MergeDoesNotAssociate()
    ensures
      var a, b, c := Table(map["k" := Table(map["x" := Leaf("1")])]), Table(map["k" := Leaf("2")]), Table(map["k" := Table(map["y" := Leaf("3")])]);
      !Groupable(a, b, c) && DeepMerge(DeepMerge(a, b), c) != DeepMerge(a, DeepMerge(b, c))
  {
    var a, b, c := Table(map["k" := Table(map["x" := Leaf("1")])]), Table(map["k" := Leaf("2")]), Table(map["k" := Table(map["y" := Leaf("3")])]);
    assert "x" in a.fields["k"].fields && "x" !in c.fields["k"].fields;
    assert !Covers(c.fields["k"], a.fields["k"]);
    MergeAssociatesExactly(a, b, c);
  }

  // ---- the loops ----

  /** A copy of `base` updated key by key. */
  method MergeLoop(base: Value, over: Value) returns (merged: Value)
    requires base.Table? && over.Table?
    ensures merged == DeepMerge(base, over)
    decreases over
  {
    var fields := base.fields;
    var todo := over.fields.Keys;
    ghost var goal := DeepMerge(base, over).fields;
    while todo != {}
      invariant todo <= over.fields.Keys
      invariant fields.Keys == base.fields.Keys + (over.fields.Keys - todo)
      invariant forall k :: k in fields ==> fields[k] == if k in todo || k !in over.fields then base.fields[k] else goal[k]
      decreases todo
    {
      var k :| k in todo;
      var value := over.fields[k];
      if value.Table? && k in fields && fields[k].Table? {
        value := MergeLoop(fields[k], value);
      }
      fields := fields[k := value];
      todo := todo - {k};
    }
    assert fields == goal;
    merged := Table(fields);
  }

  /** The flattened tree: every scalar by its path. */
  method Flatten(v: Value) returns (flat: map<Path, Scalar>)
    requires v.Table?
    ensures forall p :: p in flat <==> LeafAt(v, p).Some?
    ensures forall p :: p in flat ==> LeafAt(v, p) == Some(flat[p])
    decreases v
  {
    flat := map[];
    var todo := v.fields.Keys;
    while todo != {}
      invariant todo <= v.fields.Keys
      invariant forall p :: p in flat <==> p != [] && p[0] !in todo && LeafAt(v, p).Some?
      invariant forall p :: p in flat ==> LeafAt(v, p) == Some(flat[p])
      decreases todo
    {
      var key :| key in todo;
      var value := v.fields[key];
      var under: map<Path, Scalar> := map[[] := ""];
      if value.Table? {
        under := Flatten(value);
      } else {
        under := map[[] := value.scalar];
      }
      assert forall p :: p in under <==> LeafAt(value, p).Some?;
      assert forall p :: p in under ==> LeafAt(value, p) == Some(under[p]);
      flat := flat + Prefixed(key, under);
      forall p: Path
        ensures p in Prefixed(key, under) <==> p != [] && p[0] == key && LeafAt(v, p).Some?
        ensures p in Prefixed(key, under) ==> LeafAt(v, p) == Some(Prefixed(key, under)[p])
      {
        PrefixedHas(key, under, p);
        if p != [] {
          assert p == [p[0]] + p[1..];
        }
      }
      todo := todo - {key};
    }
  }

  function Prefixed(key: string, flat: map<Path, Scalar>): map<Path, Scalar> {
    map q | q in (set p | p in flat :: [key] + p) :: flat[q[1..]]
  }

  lemma {:induction false} PrefixedHas(key: string, flat: map<Path, Scalar>, p: Path)
    ensures p in Prefixed(key, flat) <==> p != [] && p[0] == key && p[1..] in flat
    ensures p in Prefixed(key, flat) ==> Prefixed(key, flat)[p] == flat[p[1..]]
  {
    if p != [] && p[0] == key && p[1..] in flat {
      assert p == [key] + p[1..];
    }
  }

  /** The layer's flattening contains the dotted name. */
  ghost predicate Names(tree: Value, d: string) {
    exists p: Path :: p != [] && Dotted(p) == d && LeafAt(tree, p).Some?
  }

  /** The last layer whose flattening contains the dotted name, or -1. */
  ghost function NameIndex(layers: seq<Layer>, d: string): (i: int)
    ensures -1 <= i < |layers|
    ensures i >= 0 ==> Names(layers[i].tree, d)
    ensures forall j :: i < j < |layers| ==> !Names(layers[j].tree, d)
  {
    if layers == [] then -1
    else if Names(layers[|layers| - 1].tree, d) then |layers| - 1
    else NameIndex(layers[..|layers| - 1], d)
  }

  /** The dotted names of a flattened tree. */
  method FlattenNames(tree: Value) returns (names: set<string>)
    requires tree.Table?
    ensures forall d :: d in names <==> Names(tree, d)
  {
    var flat := Flatten(tree);
    names := set p | p in flat :: Dotted(p);
    forall d
      ensures d in names <==> Names(tree, d)
    {
      if d in names {
        var p :| p in flat && Dotted(p) == d;
        assert p != [] by { assert LeafAt(tree, p).Some?; }
      }
    }
  }

  /** The layer loop: fold the layers and note, name by name, who set it last. */
  method MergeLayers(layers: seq<Layer>) returns (merged: Value, sources: map<string, string>)
    requires Tables(layers)
    ensures merged == MergeAll(layers)
    ensures forall d :: d in sources <==> NameIndex(layers, d) >= 0
    ensures forall d :: d in sources ==> sources[d] == layers[NameIndex(layers, d)].name
  {
    merged, sources := EMPTY, map[];
    for n := 0 to |layers|
      invariant merged == MergeAll(layers[..n])
      invariant forall d :: d in sources <==> NameIndex(layers[..n], d) >= 0
      invariant forall d :: d in sources ==> sources[d] == layers[NameIndex(layers[..n], d)].name
    {
      assert layers[..n + 1][..n] == layers[..n];
      merged := MergeLoop(merged, layers[n].tree);
      var names := FlattenNames(layers[n].tree);
      sources := sources + map d | d in names :: layers[n].name;
    }
    assert layers[..|layers|] == layers;
  }

  /** The name a key is reported under leads to the layer its value came from
      exactly when no later layer sets another key of that name. */
  lemma {:induction false} SourceIsRightExactly(layers: seq<Layer>, p: Path)
    requires Tables(layers) && p != [] && LeafAt(MergeAll(layers), p).Some?
    ensures var i := SourceIndex(layers, p);
      && i >= 0 && LeafAt(MergeAll(layers), p) == LeafAt(layers[i].tree, p)
      && NameIndex(layers, Dotted(p)) >= i
      && (NameIndex(layers, Dotted(p)) == i <==> forall j :: i < j < |layers| ==> !Names(layers[j].tree, Dotted(p)))
  {
    LastLayerWins(layers, p);
    var i := SourceIndex(layers, p);
    assert Names(layers[i].tree, Dotted(p));
  }

  ghost predicate DotFreeTree(tree: Value) {
    forall p: Path :: p != [] && LeafAt(tree, p).Some? ==> DotFree(p)
  }

  /** With no dot in any key, every key is reported under the layer its value came
      from. */
  lemma {:induction false} SourceIsRight(layers: seq<Layer>, p: Path)
    requires Tables(layers) && p != [] && LeafAt(MergeAll(layers), p).Some?
    requires forall j :: 0 <= j < |layers| ==> DotFreeTree(layers[j].tree)
    ensures NameIndex(layers, Dotted(p)) == SourceIndex(layers, p)
  {
    SourceIsRightExactly(layers, p);
    var i := SourceIndex(layers, p);
    assert DotFree(p) by { assert DotFreeTree(layers[i].tree); }
    forall j | i < j < |layers|
      ensures !Names(layers[j].tree, Dotted(p))
    {
      forall q: Path | q != [] && Dotted(q) == Dotted(p) && LeafAt(layers[j].tree, q).Some?
        ensures q == p
      {
        assert DotFreeTree(layers[j].tree);
        DottedIsInjective(p, q);
      }
    }
  }

  /** Two keys of one dotted name share one entry: the later layer is named for a
      value that it did not set. */
  lemma {:induction false} SharedName()
    ensures
      var layers := [Layer("file", Table(map["a" := Table(map["b" := Leaf("1")])])), Layer("env", Table(map["a.b" := Leaf("2")]))];
      && Tables(layers) && LeafAt(MergeAll(layers), ["a", "b"]) == Some("1")
      && SourceIndex(layers, ["a", "b"]) == 0 && NameIndex(layers, Dotted(["a", "b"])) == 1
  {
    var file, env := Table(map["a" := Table(map["b" := Leaf("1")])]), Table(map["a.b" := Leaf("2")]);
    var layers := [Layer("file", file), Layer("env", env)];
    var p, q: Path := ["a", "b"], ["a.b"];
    assert "a.b" != "a" by { assert |"a.b"| != |"a"|; }
    assert p == ["a"] + ["b"] && ["b"] == ["b"] + [] && q == ["a.b"] + [];
    assert LeafAt(file, p) == Some("1") && LeafAt(env, p) == None && LeafAt(env, q) == Some("2");
    assert p[1..] == ["b"];
    assert Dotted(p) == "a.b" == Dotted(q);
    assert Names(env, Dotted(p));
    assert Names(layers[1].tree, Dotted(p));
    assert NameIndex(layers, Dotted(p)) == 1;
    assert layers[..1] == [layers[0]] && [layers[0]][..0] == [];
    assert SourceIndex(layers, p) == 0;
    assert !Decides(env, p);
    LastLayerWins(layers, p);
  }

  // ---- what a repository's own file may set ----

  const PROJECT_LAYER_KEYS: map<string, set<string>> := map[
    "sandbox" := {"languages", "gate_command"},
    "github" := {"branch_prefix", "pr_title_template", "commit_message_template"},
    "artifacts" := {"exclude"}]

  /** A path a repository's own file may set. */
  predicate Allowed(keys: map<string, set<string>>, p: Path) {
    |p| >= 2 && p[0] in keys && p[1] in keys[p[0]]
  }

  predicate IsProjectKey(section: string, key: string) {
    || (section == "sandbox" && (key == "languages" || key == "gate_command"))
    || (section == "github" && (key == "branch_prefix" || key == "pr_title_template" || key == "commit_message_template"))
    || (section == "artifacts" && key == "exclude")
  }

  /** The six keys a repository's own file may set. */
  lemma {:induction false} AllowedKeys(p: Path)
    ensures Allowed(PROJECT_LAYER_KEYS, p) <==> |p| >= 2 && IsProjectKey(p[0], p[1])
  {
    assert "sandbox"[0] != "github"[0] && "github"[0] != "artifacts"[0] && "sandbox"[0] != "artifacts"[0];
  }

  function Within(v: Value, keep: set<string>): Value
    requires v.Table?
  {
    Table(map k | k in v.fields && k in keep :: v.fields[k])
  }

  function Without(v: Value, drop: set<string>): Value
    requires v.Table?
  {
    Table(map k | k in v.fields && k !in drop :: v.fields[k])
  }

  /** Split a repository-carried layer into what it may set and the paths it may
      not: every key it holds is in exactly one of the two. */
  method ProjectLayer(keys: map<string, set<string>>, raw: Value) returns (kept: Value, dropped: set<Path>)
    requires raw.Table?
    ensures kept.Table?
    ensures forall p :: LeafAt(kept, p).Some? <==> LeafAt(raw, p).Some? && Allowed(keys, p)
    ensures forall p :: p in dropped <==> LeafAt(raw, p).Some? && !Allowed(keys, p)
    ensures forall p :: LeafAt(kept, p).Some? ==> LeafAt(kept, p) == LeafAt(raw, p)
    ensures IsCut(keys, kept)
  {
    var fields: map<string, Value> := map[];
    dropped := {};
    var todo := raw.fields.Keys;
    while todo != {}
      invariant todo <= raw.fields.Keys
      invariant fields.Keys <= raw.fields.Keys - todo
      invariant forall s :: s in raw.fields.Keys - todo ==> SectionKept(keys, raw.fields[s], s, fields)
      invariant forall p :: p in dropped <==> p != [] && p[0] !in todo && LeafAt(raw, p).Some? && !Allowed(keys, p)
      decreases todo
    {
      var section :| section in todo;
      var value := raw.fields[section];
      var rest := value;
      if section in keys && value.Table? {
        var keep := Within(value, keys[section]);
        if keep.fields != map[] {
          fields := fields[section := keep];
        }
        rest := Without(value, keys[section]);
      }
      var flat := Flatten(Table(map[section := rest]));
      forall p: Path
        ensures p in flat <==> p != [] && p[0] == section && LeafAt(raw, p).Some? && !Allowed(keys, p)
      {
        DroppedPath(keys, raw, section, rest, p);
      }
      dropped := dropped + flat.Keys;
      todo := todo - {section};
    }
    kept := Table(fields);
    forall p: Path
      ensures LeafAt(kept, p).Some? <==> LeafAt(raw, p).Some? && Allowed(keys, p)
      ensures LeafAt(kept, p).Some? ==> LeafAt(kept, p) == LeafAt(raw, p)
    {
      KeptPath(keys, raw, kept, p);
    }
  }

  /** What the loop has put in `kept` for one section. */
  ghost predicate SectionKept(keys: map<string, set<string>>, value: Value, s: string, kept: map<string, Value>) {
    if s in keys && value.Table? && Within(value, keys[s]).fields != map[]
    then s in kept && kept[s] == Within(value, keys[s])
    else s !in kept
  }

  /** Only allowed sections, each a table of allowed keys. */
  ghost predicate IsCut(keys: map<string, set<string>>, v: Value) {
    v.Table? && forall s :: s in v.fields ==> s in keys && v.fields[s].Table? && v.fields[s].fields.Keys <= keys[s]
  }

  lemma {:induction false} DroppedPath(keys: map<string, set<string>>, raw: Value, section: string, rest: Value, p: Path)
    requires raw.Table? && section in raw.fields
    requires rest == if section in keys && raw.fields[section].Table? then Without(raw.fields[section], keys[section]) else raw.fields[section]
    ensures LeafAt(Table(map[section := rest]), p).Some? <==> p != [] && p[0] == section && LeafAt(raw, p).Some? && !Allowed(keys, p)
  {
    if p != [] {
      LeafInside(Table(map[section := rest]), p);
      LeafInside(raw, p);
      if |p| >= 2 {
        LeafInside(rest, p[1..]);
        LeafInside(raw.fields[section], p[1..]);
      }
    }
  }

  lemma {:induction false} KeptPath(keys: map<string, set<string>>, raw: Value, kept: Value, p: Path)
    requires raw.Table? && kept.Table? && kept.fields.Keys <= raw.fields.Keys
    requires forall s :: s in raw.fields ==> SectionKept(keys, raw.fields[s], s, kept.fields)
    ensures LeafAt(kept, p).Some? <==> LeafAt(raw, p).Some? && Allowed(keys, p)
    ensures LeafAt(kept, p).Some? ==> LeafAt(kept, p) == LeafAt(raw, p)
  {
    if p != [] {
      LeafInside(kept, p);
      LeafInside(raw, p);
      if p[0] in raw.fields {
        assert SectionKept(keys, raw.fields[p[0]], p[0], kept.fields);
        if |p| >= 2 {
          LeafInside(raw.fields[p[0]], p[1..]);
          assert Allowed(keys, p) && raw.fields[p[0]].Table? && p[1] in raw.fields[p[0]].fields ==>
            p[1] in Within(raw.fields[p[0]], keys[p[0]]).fields;
          if p[0] in kept.fields {
            LeafInside(kept.fields[p[0]], p[1..]);
          }
        }
      }
    }
  }

  /** Sections the kept part sets are tables underneath, where they exist. */
  ghost predicate SectionsAreTables(base: Value, kept: Value) {
    base.Table? && kept.Table? && forall s :: s in kept.fields && s in base.fields ==> base.fields[s].Table?
  }

  /** Merging a repository's own layer leaves every key outside the allowed ones
      as it was, exactly when no section it sets was a scalar below. */
  lemma {:induction false} ProjectLayerIsContained(keys: map<string, set<string>>, base: Value, kept: Value)
    requires base.Table? && IsCut(keys, kept)
    ensures (forall p: Path :: p != [] && !Allowed(keys, p) ==> LeafAt(DeepMerge(base, kept), p) == LeafAt(base, p))
            <==> SectionsAreTables(base, kept)
  {
    if SectionsAreTables(base, kept) {
      forall p: Path | p != [] && !Allowed(keys, p)
        ensures LeafAt(DeepMerge(base, kept), p) == LeafAt(base, p)
      {
        UndecidedOutside(keys, base, kept, p);
      }
    } else {
      var s :| s in kept.fields && s in base.fields && !base.fields[s].Table?;
      LeafInside(base, [s]);
      LeafInside(DeepMerge(base, kept), [s]);
      assert LeafAt(base, [s]).Some? && LeafAt(DeepMerge(base, kept), [s]).None?;
      assert !Allowed(keys, [s]);
    }
  }

  lemma {:induction false} UndecidedOutside(keys: map<string, set<string>>, base: Value, kept: Value, p: Path)
    requires IsCut(keys, kept) && SectionsAreTables(base, kept) && p != [] && !Allowed(keys, p)
    ensures LeafAt(DeepMerge(base, kept), p) == LeafAt(base, p)
  {
    MergedLeaf(base, kept, p);
    LeafInside(base, p);
    LeafInside(kept, p);
    if p[0] in kept.fields && |p| >= 2 {
      assert Decides(kept, p) <==> Decides(kept.fields[p[0]], p[1..]);
    }
  }

  // ---- dotted spellings ----

  function Dotted(p: Path): string { Join(p, '.') }

  ghost predicate DotFree(p: Path) { AllWithout(p, '.') }

  /** The dotted names under which keys are reported tell paths apart as long as
      no key itself holds a dot. */
  lemma {:induction false} DottedIsInjective(p: Path, q: Path)
    requires p != [] && q != [] && DotFree(p) && DotFree(q) && Dotted(p) == Dotted(q)
    ensures p == q
  {
    SplitInvertsJoin(p, '.');
    SplitInvertsJoin(q, '.');
  }

  /** A path shares its dotted name with one of plain keys exactly when one of its
      own keys holds a dot. */
  lemma {:induction false} DottedCollidesExactly(p: Path)
    requires p != []
    ensures !DotFree(p) <==> exists q: Path :: q != [] && q != p && DotFree(q) && Dotted(q) == Dotted(p)
  {
    if DotFree(p) {
      forall q: Path | q != [] && DotFree(q) && Dotted(q) == Dotted(p)
        ensures q == p
      {
        DottedIsInjective(p, q);
      }
    } else {
      var q := Split(Dotted(p), '.');
      JoinInvertsSplit(Dotted(p), '.');
      PiecesAreClean(Dotted(p), '.');
      assert q != [] && q != p && DotFree(q) && Dotted(q) == Dotted(p);
    }
  }
}
