/** Folding a window's runs into lanes per kind and into daily buckets. */
module LaneFold {
  datatype Row = Row(kind: string, state: string, turns: int, tokens: int, cache: int, active: real, created: real, updated: real)

  datatype Lane = Lane(
    runs: int, landed: int, broken: int, cancelled: int,
    turns: int, tokens: int, cache: int, active: real, elapsed: real)

  function Nothing(): Lane { Lane(0, 0, 0, 0, 0, 0, 0, 0.0, 0.0) }

  function Plus(a: Lane, b: Lane): Lane {
    Lane(a.runs + b.runs, a.landed + b.landed, a.broken + b.broken, a.cancelled + b.cancelled,
         a.turns + b.turns, a.tokens + b.tokens, a.cache + b.cache, a.active + b.active, a.elapsed + b.elapsed)
  }

  predicate HasLanded(state: string) { state == "merged" || state == "completed" }

  function One(c: bool): int { if c then 1 else 0 }

  function Elapsed(row: Row): real {
    if row.updated - row.created > 0.0 then row.updated - row.created else 0.0
  }

  function LaneOfRow(row: Row): Lane {
    Lane(1, One(HasLanded(row.state)), One(row.state == "failed"), One(row.state == "cancelled"),
         row.turns, row.tokens, row.cache, row.active, Elapsed(row))
  }

  /** All rows in one lane. */
  function Direct(rows: seq<Row>): Lane {
    if rows == [] then Nothing() else Plus(Direct(rows[..|rows| - 1]), LaneOfRow(rows[|rows| - 1]))
  }

  function Only(rows: seq<Row>, kind: string): seq<Row> {
    if rows == [] then []
    else
      var last := rows[|rows| - 1];
      Only(rows[..|rows| - 1], kind) + if last.kind == kind then [last] else []
  }

  /** The lanes of `order`, added up. */
  function Total(lanes: map<string, Lane>, order: seq<string>): Lane
    requires forall k :: k in order ==> k in lanes
  {
    if order == [] then Nothing() else Plus(Total(lanes, order[..|order| - 1]), lanes[order[|order| - 1]])
  }

  ghost predicate Distinct(order: seq<string>) {
    forall i, j :: 0 <= i < j < |order| ==> order[i] != order[j]
  }

  lemma {:induction false} DirectSnoc(rows: seq<Row>, row: Row)
    ensures Direct(rows + [row]) == Plus(Direct(rows), LaneOfRow(row))
  {
    assert (rows + [row])[..|rows|] == rows;
  }

  lemma {:induction false} OnlySnoc(rows: seq<Row>, row: Row, kind: string)
    ensures Only(rows + [row], kind) == if row.kind == kind then Only(rows, kind) + [row] else Only(rows, kind)
  {
    assert (rows + [row])[..|rows|] == rows;
  }

  lemma {:induction false} TotalElsewhere(lanes: map<string, Lane>, order: seq<string>, kind: string, lane: Lane)
    requires (forall k :: k in order ==> k in lanes) && kind !in order
    ensures Total(lanes[kind := lane], order) == Total(lanes, order)
    decreases |order|
  {
    if order != [] {
      TotalElsewhere(lanes, order[..|order| - 1], kind, lane);
      assert order[|order| - 1] in order;
    }
  }

  lemma {:induction false} PlusSwaps(a: Lane, b: Lane, c: Lane)
    ensures Plus(Plus(a, b), c) == Plus(a, Plus(b, c)) == Plus(Plus(a, c), b)
  {
  }

  /** Adding a row to one lane adds it to the total. */
  lemma {:induction false} TotalUpdate(lanes: map<string, Lane>, order: seq<string>, kind: string, more: Lane)
    requires (forall k :: k in order ==> k in lanes) && Distinct(order) && kind in order
    ensures Total(lanes[kind := Plus(lanes[kind], more)], order) == Plus(Total(lanes, order), more)
    decreases |order|
  {
    var front, last := order[..|order| - 1], order[|order| - 1];
    assert order == front + [last];
    if last == kind {
      TotalElsewhere(lanes, front, kind, Plus(lanes[kind], more));
      PlusSwaps(Total(lanes, front), lanes[kind], more);
    } else {
      TotalUpdate(lanes, front, kind, more);
      PlusSwaps(Total(lanes, front), lanes[last], more);
    }
  }

  /** Each kind's lane is that of its own rows, and the lanes together are the one
      lane of all rows. */
  ghost predicate Folded(rows: seq<Row>, lanes: map<string, Lane>, order: seq<string>) {
    && Listed(lanes, order)
    && (forall k :: IsLaneOf(rows, lanes, k))
    && Total(lanes, order) == Direct(rows)
  }

  ghost predicate IsLaneOf(rows: seq<Row>, lanes: map<string, Lane>, kind: string) {
    if kind in lanes then HasKind(rows, kind) && lanes[kind] == Direct(Only(rows, kind)) else !HasKind(rows, kind)
  }

  ghost predicate Listed(lanes: map<string, Lane>, order: seq<string>) {
    Distinct(order) && forall k :: k in order <==> k in lanes
  }

  ghost predicate HasKind(rows: seq<Row>, kind: string) {
    exists i :: 0 <= i < |rows| && rows[i].kind == kind
  }

  function Grown(lanes: map<string, Lane>, row: Row): map<string, Lane> {
    lanes[row.kind := Plus(if row.kind in lanes then lanes[row.kind] else Nothing(), LaneOfRow(row))]
  }

  function GrownOrder(lanes: map<string, Lane>, order: seq<string>, row: Row): seq<string> {
    if row.kind in lanes then order else order + [row.kind]
  }

  /** One more row, in the lane of its kind. */
  method AddRow(ghost rows: seq<Row>, lanes: map<string, Lane>, order: seq<string>, row: Row)
    returns (grown: map<string, Lane>, grownOrder: seq<string>)
    requires Folded(rows, lanes, order)
    ensures Folded(rows + [row], grown, grownOrder)
  {
    FoldedNext(rows, lanes, order, row);
    grown, grownOrder := Grown(lanes, row), GrownOrder(lanes, order, row);
  }

  /** The lanes per kind, each kind listed once. */
  method FoldLanes(rows: seq<Row>) returns (lanes: map<string, Lane>, order: seq<string>)
    ensures Folded(rows, lanes, order)
  {
    lanes, order := map[], [];
    for n := 0 to |rows|
      invariant Folded(rows[..n], lanes, order)
    {
      assert rows[..n + 1] == rows[..n] + [rows[n]];
      lanes, order := AddRow(rows[..n], lanes, order, rows[n]);
    }
    assert rows[..|rows|] == rows;
  }

  lemma {:induction false} NoneOfKind(rows: seq<Row>, kind: string)
    requires !HasKind(rows, kind)
    ensures Only(rows, kind) == []
    decreases |rows|
  {
    if rows != [] {
      var front := rows[..|rows| - 1];
      assert !HasKind(front, kind) by {
        assert forall i :: 0 <= i < |front| ==> front[i] == rows[i];
      }
      NoneOfKind(front, kind);
      assert rows[|rows| - 1].kind != kind;
    }
  }

  lemma {:induction false} LaneNext(rows: seq<Row>, lanes: map<string, Lane>, row: Row, k: string)
    requires IsLaneOf(rows, lanes, k)
    ensures IsLaneOf(rows + [row], Grown(lanes, row), k)
  {
    KindsNext(rows, row, k);
    OnlySnoc(rows, row, k);
    if k !in lanes {
      NoneOfKind(rows, k);
    }
    if k == row.kind {
      DirectSnoc(Only(rows, k), row);
    }
  }

  lemma {:induction false} TotalNext(lanes: map<string, Lane>, order: seq<string>, row: Row)
    requires Listed(lanes, order)
    ensures Listed(Grown(lanes, row), GrownOrder(lanes, order, row))
    ensures Total(Grown(lanes, row), GrownOrder(lanes, order, row)) == Plus(Total(lanes, order), LaneOfRow(row))
  {
    if row.kind in lanes {
      TotalUpdate(lanes, order, row.kind, LaneOfRow(row));
    } else {
      TotalElsewhere(lanes, order, row.kind, Plus(Nothing(), LaneOfRow(row)));
      assert (order + [row.kind])[..|order|] == order;
      assert Plus(Nothing(), LaneOfRow(row)) == LaneOfRow(row);
    }
  }

  lemma {:induction false} KindsNext(rows: seq<Row>, row: Row, k: string)
    ensures HasKind(rows + [row], k) <==> k == row.kind || HasKind(rows, k)
  {
    var all := rows + [row];
    assert all[|rows|] == row;
    assert forall i :: 0 <= i < |rows| ==> all[i] == rows[i];
  }

  lemma {:induction false} FoldedNext(rows: seq<Row>, lanes: map<string, Lane>, order: seq<string>, row: Row)
    requires Folded(rows, lanes, order)
    ensures Folded(rows + [row], Grown(lanes, row), GrownOrder(lanes, order, row))
  {
    TotalNext(lanes, order, row);
    DirectSnoc(rows, row);
    forall k
      ensures IsLaneOf(rows + [row], Grown(lanes, row), k)
    {
      LaneNext(rows, lanes, row, k);
    }
  }

  /** The window before, in one lane, whatever the kinds. */
  method LaneOf(rows: seq<Row>) returns (lane: Lane)
    ensures lane == Direct(rows)
  {
    lane := Nothing();
    for n := 0 to |rows|
      invariant lane == Direct(rows[..n])
    {
      assert rows[..n + 1] == rows[..n] + [rows[n]];
      DirectSnoc(rows[..n], rows[n]);
      lane := Plus(lane, LaneOfRow(rows[n]));
    }
    assert rows[..|rows|] == rows;
  }

  // ---- what the counters count ----

  function Where(rows: seq<Row>, chosen: Row -> bool): seq<Row> {
    if rows == [] then []
    else Where(rows[..|rows| - 1], chosen) + if chosen(rows[|rows| - 1]) then [rows[|rows| - 1]] else []
  }

  function SumInt(rows: seq<Row>, f: Row -> int): int {
    if rows == [] then 0 else SumInt(rows[..|rows| - 1], f) + f(rows[|rows| - 1])
  }

  function SumReal(rows: seq<Row>, f: Row -> real): real {
    if rows == [] then 0.0 else SumReal(rows[..|rows| - 1], f) + f(rows[|rows| - 1])
  }

  /** A lane counts the rows that landed, failed and were cancelled, and adds up
      their turns, tokens and times; the clock never counts backwards. */
  lemma {:induction false} LaneCounts(rows: seq<Row>)
    ensures var lane := Direct(rows);
      && lane.runs == |rows|
      && lane.landed == |Where(rows, (r: Row) => r.state == "completed" || r.state == "merged")|
      && lane.broken == |Where(rows, (r: Row) => r.state == "failed")|
      && lane.cancelled == |Where(rows, (r: Row) => r.state == "cancelled")|
      && lane.turns == SumInt(rows, (r: Row) => r.turns)
      && lane.tokens == SumInt(rows, (r: Row) => r.tokens)
      && lane.cache == SumInt(rows, (r: Row) => r.cache)
      && lane.active == SumReal(rows, (r: Row) => r.active)
      && lane.elapsed == SumReal(rows, (r: Row) => if r.created <= r.updated then r.updated - r.created else 0.0)
    decreases |rows|
  {
    if rows != [] {
      LaneCounts(rows[..|rows| - 1]);
    }
  }

  /** A bucket's counters are those of the lane of the same row. */
  lemma {:induction false} BucketCounts(row: Row)
    ensures var lane, bucket := Direct([row]), BucketOfRow(row);
      && bucket.runs == lane.runs && bucket.turns == lane.turns
      && bucket.landed == lane.landed && bucket.broken == lane.broken && bucket.cancelled == lane.cancelled
  {
    assert [row][..0] == [];
  }

  /** How the rows interleave makes no difference to any counter. */
  lemma {:induction false} OrderDoesNotMatter(a: seq<Row>, b: seq<Row>)
    requires multiset(a) == multiset(b)
    ensures Direct(a) == Direct(b)
    decreases |a|
  {
    if a == [] {
      assert |multiset(b)| == 0;
      assert b == [];
    } else {
      var row, front := a[|a| - 1], a[..|a| - 1];
      assert a == front + [row];
      assert row in multiset(b);
      var i :| 0 <= i < |b| && b[i] == row;
      OneTakenOut(b, i);
      assert multiset(front) == multiset(a) - multiset{row};
      OrderDoesNotMatter(front, b[..i] + b[i + 1..]);
      DirectMiddle(b[..i], row, b[i + 1..]);
    }
  }

  lemma {:induction false} OneTakenOut(b: seq<Row>, i: nat)
    requires i < |b|
    ensures b == b[..i] + [b[i]] + b[i + 1..]
    ensures multiset(b[..i] + b[i + 1..]) == multiset(b) - multiset{b[i]}
  {
    var rest := b[..i] + b[i + 1..];
    assert b == b[..i] + [b[i]] + b[i + 1..];
    assert multiset(b) == multiset(rest) + multiset{b[i]};
  }

  lemma {:induction false} DirectMiddle(a: seq<Row>, row: Row, b: seq<Row>)
    ensures Direct(a + [row] + b) == Plus(Direct(a + b), LaneOfRow(row))
    decreases |b|
  {
    if b == [] {
      assert a + [row] + b == a + [row] && a + b == a;
      DirectSnoc(a, row);
    } else {
      var front, last := b[..|b| - 1], b[|b| - 1];
      assert a + [row] + b == (a + [row] + front) + [last];
      assert a + b == (a + front) + [last];
      DirectMiddle(a, row, front);
      DirectSnoc(a + [row] + front, last);
      DirectSnoc(a + front, last);
    }
  }

  // ---- daily buckets ----

  datatype Bucket = Bucket(runs: int, turns: int, landed: int, broken: int, cancelled: int)

  function Empty(): Bucket { Bucket(0, 0, 0, 0, 0) }

  function Join(a: Bucket, b: Bucket): Bucket {
    Bucket(a.runs + b.runs, a.turns + b.turns, a.landed + b.landed, a.broken + b.broken, a.cancelled + b.cancelled)
  }

  function BucketOfRow(row: Row): Bucket {
    Bucket(1, row.turns, One(HasLanded(row.state)), One(row.state == "failed"), One(row.state == "cancelled"))
  }

  function SumOf(buckets: seq<Bucket>): Bucket {
    if buckets == [] then Empty() else Join(SumOf(buckets[..|buckets| - 1]), buckets[|buckets| - 1])
  }

  /** The rows created at or after `since`, in one bucket. */
  function Since(rows: seq<Row>, since: real): Bucket {
    if rows == [] then Empty()
    else
      var last := rows[|rows| - 1];
      Join(Since(rows[..|rows| - 1], since), if last.created >= since then BucketOfRow(last) else Empty())
  }

  lemma {:induction false} SumUpdate(buckets: seq<Bucket>, i: nat, more: Bucket)
    requires i < |buckets|
    ensures SumOf(buckets[i := Join(buckets[i], more)]) == Join(SumOf(buckets), more)
    decreases |buckets|
  {
    var after, front := buckets[i := Join(buckets[i], more)], buckets[..|buckets| - 1];
    if i == |buckets| - 1 {
      assert after[..|buckets| - 1] == front;
    } else {
      assert after[..|buckets| - 1] == front[i := Join(front[i], more)];
      SumUpdate(front, i, more);
    }
  }

  function Blank(n: nat): (r: seq<Bucket>)
    ensures |r| == n
  {
    if n == 0 then [] else Blank(n - 1) + [Empty()]
  }

  lemma {:induction false} SumOfBlank(n: nat)
    ensures SumOf(Blank(n)) == Empty()
  {
    var b := Blank(n);
    if n > 0 {
      SumOfBlank(n - 1);
      var front := Blank(n - 1);
      assert b[..|b| - 1] == front && b[|b| - 1] == Empty();
      assert SumOf(b) == Join(SumOf(front), Empty());
    }
  }

  /** The rows put in bucket `k`. */
  function At(rows: seq<Row>, place: Row -> int, k: int): Bucket {
    if rows == [] then Empty()
    else
      var last := rows[|rows| - 1];
      Join(At(rows[..|rows| - 1], place, k), if place(last) == k then BucketOfRow(last) else Empty())
  }

  /** The rows put in any of `n` buckets. */
  function Placed(rows: seq<Row>, place: Row -> int, n: nat): Bucket {
    if rows == [] then Empty()
    else
      var last := rows[|rows| - 1];
      Join(Placed(rows[..|rows| - 1], place, n), if 0 <= place(last) < n then BucketOfRow(last) else Empty())
  }

  lemma {:induction false} PlacedSnoc(rows: seq<Row>, row: Row, place: Row -> int, n: nat)
    ensures Placed(rows + [row], place, n) ==
      if 0 <= place(row) < n then Join(Placed(rows, place, n), BucketOfRow(row)) else Placed(rows, place, n)
  {
    assert (rows + [row])[..|rows|] == rows;
  }

  ghost predicate Filled(rows: seq<Row>, place: Row -> int, daily: seq<Bucket>, k: nat) {
    k < |daily| && daily[k] == At(rows, place, k)
  }

  ghost predicate Scattered(rows: seq<Row>, place: Row -> int, daily: seq<Bucket>) {
    && SumOf(daily) == Placed(rows, place, |daily|)
    && forall k :: 0 <= k < |daily| ==> Filled(rows, place, daily, k)
  }

  function Tallied(daily: seq<Bucket>, row: Row, index: int): (r: seq<Bucket>)
    ensures |r| == |daily|
  {
    if 0 <= index < |daily| then daily[index := Join(daily[index], BucketOfRow(row))] else daily
  }

  lemma {:induction false} FilledNext(rows: seq<Row>, row: Row, place: Row -> int, daily: seq<Bucket>, k: nat)
    requires Filled(rows, place, daily, k)
    ensures Filled(rows + [row], place, Tallied(daily, row, place(row)), k)
  {
  }

  lemma {:induction false} SumNext(rows: seq<Row>, row: Row, place: Row -> int, daily: seq<Bucket>)
    requires SumOf(daily) == Placed(rows, place, |daily|)
    ensures SumOf(Tallied(daily, row, place(row))) == Placed(rows + [row], place, |daily|)
  {
    PlacedSnoc(rows, row, place, |daily|);
    if 0 <= place(row) < |daily| {
      SumUpdate(daily, place(row), BucketOfRow(row));
    }
  }

  lemma {:induction false} ScatteredNext(rows: seq<Row>, row: Row, place: Row -> int, daily: seq<Bucket>)
    requires Scattered(rows, place, daily)
    ensures Scattered(rows + [row], place, Tallied(daily, row, place(row)))
  {
    SumNext(rows, row, place, daily);
    forall k | 0 <= k < |daily|
      ensures Filled(rows + [row], place, Tallied(daily, row, place(row)), k)
    {
      FilledNext(rows, row, place, daily, k);
    }
  }

  lemma {:induction false} ScatteredNone(rows: seq<Row>, place: Row -> int, n: nat)
    requires rows == []
    ensures Scattered(rows, place, Blank(n))
  {
    SumOfBlank(n);
    BlankAt(n);
  }

  lemma {:induction false} BlankAt(n: nat)
    ensures forall k :: 0 <= k < n ==> Blank(n)[k] == Empty()
  {
    if n > 0 {
      BlankAt(n - 1);
    }
  }

  method Scatter(rows: seq<Row>, place: Row -> int, buckets: nat) returns (daily: seq<Bucket>)
    ensures |daily| == buckets && Scattered(rows, place, daily)
  {
    daily := Blank(buckets);
    ScatteredNone(rows[..0], place, buckets);
    for n := 0 to |rows|
      invariant |daily| == buckets && Scattered(rows[..n], place, daily)
    {
      var row := rows[n];
      assert rows[..n + 1] == rows[..n] + [row];
      ScatteredNext(rows[..n], row, place, daily);
      daily := Tallied(daily, row, place(row));
    }
    assert rows[..|rows|] == rows;
  }

  function Width(since: real, until: real, buckets: nat): real {
    if buckets > 0 && until > since then (until - since) / buckets as real else 0.0
  }

  /** Which bucket a row falls in: the last one for anything late, none when the
      window is empty or the row came before it. */
  function Index(created: real, since: real, width: real, buckets: nat): int {
    if width <= 0.0 then -1
    else
      var i := ((created - since) / width).Floor;
      if i < buckets - 1 then i else buckets - 1
  }

  lemma {:induction false} TimesLess(a: real, b: real, w: real)
    requires w > 0.0
    ensures a < b <==> a * w < b * w
  {
    if a < b {
      assert (b - a) * w > 0.0;
    } else {
      assert (a - b) * w >= 0.0;
    }
    assert (b - a) * w == b * w - a * w;
  }

  /** The whole part of a quotient says between which multiples the dividend is. */
  lemma {:induction false} QuotientIs(x: real, w: real, k: int)
    requires w > 0.0
    ensures (x / w).Floor >= k <==> x >= k as real * w
  {
    var q := x / w;
    assert q * w == x;
    TimesLess(q, k as real, w);
  }

  /** The time range of bucket `k`: the last one is open above. */
  ghost predicate InRange(created: real, since: real, width: real, buckets: nat, k: int) {
    && 0 <= k < buckets && created >= since + k as real * width
    && (k < buckets - 1 ==> created < since + (k + 1) as real * width)
  }

  /** A row falls in bucket `k` exactly when it was created in the bucket's range. */
  lemma {:induction false} IndexIsRange(created: real, since: real, width: real, buckets: nat, k: int)
    requires width > 0.0 && 0 <= k < buckets
    ensures Index(created, since, width, buckets) == k <==> InRange(created, since, width, buckets, k)
  {
    var i := ((created - since) / width).Floor;
    QuotientIs(created - since, width, k);
    QuotientIs(created - since, width, k + 1);
  }

  /** The rows created in the range of bucket `k`, in one bucket. */
  ghost function Within(rows: seq<Row>, since: real, width: real, buckets: nat, k: int): Bucket {
    if rows == [] then Empty()
    else
      var last := rows[|rows| - 1];
      Join(Within(rows[..|rows| - 1], since, width, buckets, k),
           if InRange(last.created, since, width, buckets, k) then BucketOfRow(last) else Empty())
  }

  lemma {:induction false} AtIsWithin(rows: seq<Row>, place: Row -> int, since: real, width: real, buckets: nat, k: int)
    requires forall i :: 0 <= i < |rows| ==> (place(rows[i]) == k <==> InRange(rows[i].created, since, width, buckets, k))
    ensures At(rows, place, k) == Within(rows, since, width, buckets, k)
    decreases |rows|
  {
    if rows != [] {
      var front := rows[..|rows| - 1];
      assert forall i :: 0 <= i < |front| ==> front[i] == rows[i];
      AtIsWithin(front, place, since, width, buckets, k);
      assert place(rows[|rows| - 1]) == k <==> InRange(rows[|rows| - 1].created, since, width, buckets, k);
    }
  }

  lemma {:induction false} PlacedIsSince(rows: seq<Row>, place: Row -> int, n: nat, since: real, open: bool)
    requires forall k :: 0 <= k < |rows| ==> (0 <= place(rows[k]) < n <==> open && rows[k].created >= since)
    ensures Placed(rows, place, n) == if open then Since(rows, since) else Empty()
    decreases |rows|
  {
    if rows != [] {
      var front, last := rows[..|rows| - 1], rows[|rows| - 1];
      assert forall k :: 0 <= k < |front| ==> front[k] == rows[k];
      PlacedIsSince(front, place, n, since, open);
      assert rows == front + [last];
      PlacedSnoc(front, last, place, n);
    }
  }

  function Placing(since: real, width: real, buckets: nat): Row -> int {
    (row: Row) => Index(row.created, since, width, buckets)
  }

  /** The buckets of a window that is not empty: each holds the rows created in
      its time range, and together they hold every row since the start. */
  method FoldBuckets(rows: seq<Row>, since: real, until: real, buckets: nat) returns (daily: seq<Bucket>)
    ensures |daily| == buckets
    ensures SumOf(daily) == if buckets > 0 && until > since then Since(rows, since) else Empty()
    ensures until > since ==> forall k :: 0 <= k < buckets ==> daily[k] == Within(rows, since, Width(since, until, buckets), buckets, k)
  {
    var width := Width(since, until, buckets);
    daily := Scatter(rows, Placing(since, width, buckets), buckets);
    assert forall k :: 0 <= k < |rows| ==>
      (0 <= Placing(since, width, buckets)(rows[k]) < buckets <==> buckets > 0 && until > since && rows[k].created >= since);
    forall k | 0 <= k < buckets && until > since
      ensures daily[k] == Within(rows, since, width, buckets, k)
    {
      assert Filled(rows, Placing(since, width, buckets), daily, k);
      BucketIsRange(rows, since, until, buckets, k);
    }
    PlacedIsSince(rows, Placing(since, width, buckets), buckets, since, buckets > 0 && until > since);
  }

  lemma {:induction false} BucketIsRange(rows: seq<Row>, since: real, until: real, buckets: nat, k: int)
    requires until > since && 0 <= k < buckets
    ensures var width := Width(since, until, buckets);
      At(rows, Placing(since, width, buckets), k) == Within(rows, since, width, buckets, k)
  {
    var width := Width(since, until, buckets);
    forall i | 0 <= i < |rows|
      ensures Placing(since, width, buckets)(rows[i]) == k <==> InRange(rows[i].created, since, width, buckets, k)
    {
      IndexIsRange(rows[i].created, since, width, buckets, k);
    }
    AtIsWithin(rows, Placing(since, width, buckets), since, width, buckets, k);
  }
}
