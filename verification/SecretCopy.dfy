/** Copying a registry download to disk while looking for credentials in it,
    chunk by chunk, with a window that overlaps the previous chunk. */
module SecretCopy {
  import opened Lines
  import opened Wrappers

  const MAX_ARTIFACT_BYTES := 1024 * 1024 * 1024

  datatype Error = TimedOut | TooLarge | Leaked | DigestMismatch | PartialExists

  /** `value in window` on byte strings. */
  ghost predicate Occurs(value: Bytes, window: Bytes) {
    exists i :: OccursAt(value, window, i)
  }

  ghost predicate OccursAt(value: Bytes, window: Bytes, i: int) {
    0 <= i && i + |value| <= |window| && window[i..i + |value|] == value
  }

  function Concat(chunks: seq<Bytes>): Bytes {
    if chunks == [] then [] else Concat(chunks[..|chunks| - 1]) + chunks[|chunks| - 1]
  }

  lemma {:induction false} ConcatSnoc(chunks: seq<Bytes>, n: nat)
    requires n < |chunks|
    ensures Concat(chunks[..n + 1]) == Concat(chunks[..n]) + chunks[n]
  {
    assert chunks[..n + 1][..n] == chunks[..n];
  }

  lemma {:induction false} ConcatGrows(chunks: seq<Bytes>, n: nat)
    requires n <= |chunks|
    ensures Concat(chunks[..n]) <= Concat(chunks)
    decreases |chunks| - n
  {
    if n == |chunks| {
      assert chunks[..n] == chunks;
    } else {
      ConcatSnoc(chunks, n);
      ConcatGrows(chunks, n + 1);
    }
  }

  function Overlap(secrets: seq<Bytes>): (n: nat)
    ensures forall s :: s in secrets && s != [] ==> |s| - 1 <= n
  {
    if secrets == [] then 0
    else
      var rest := Overlap(secrets[1..]);
      if |secrets[0]| > rest + 1 then |secrets[0]| - 1 else rest
  }

  function LastBytes(s: Bytes, n: nat): Bytes {
    if n >= |s| then s else s[|s| - n..]
  }

  lemma {:induction false} OccursInLonger(value: Bytes, a: Bytes, whole: Bytes, from: nat)
    requires from + |a| <= |whole| && whole[from..from + |a|] == a
    requires Occurs(value, a)
    ensures Occurs(value, whole)
  {
    var i :| OccursAt(value, a, i);
    assert forall j :: from <= j < from + |a| ==> whole[j] == a[j - from];
    assert whole[from + i..from + i + |value|] == whole[from..from + |a|][i..i + |value|];
    assert OccursAt(value, whole, from + i);
  }

  /** An occurrence in the stream so far plus a chunk lies either in the stream
      so far, or inside the window made of its last bytes and the chunk. */
  lemma {:induction false} WindowSuffices(value: Bytes, before: Bytes, chunk: Bytes, overlap: nat)
    requires value != [] && |value| - 1 <= overlap
    ensures Occurs(value, before + chunk) <==>
            Occurs(value, before) || Occurs(value, LastBytes(before, overlap) + chunk)
  {
    var whole, tail := before + chunk, LastBytes(before, overlap);
    var window := tail + chunk;
    var from := |before| - |tail|;
    assert whole[from..from + |window|] == window;
    assert whole[0..|before|] == before;
    if Occurs(value, before) { OccursInLonger(value, before, whole, 0); }
    if Occurs(value, window) { OccursInLonger(value, window, whole, from); }
    if Occurs(value, whole) {
      var i :| OccursAt(value, whole, i);
      if i + |value| <= |before| {
        assert before[i..i + |value|] == whole[i..i + |value|];
        assert OccursAt(value, before, i);
      } else {
        assert i >= from;
        assert window[i - from..i - from + |value|] == whole[i..i + |value|];
        assert OccursAt(value, window, i - from);
      }
    }
  }

  lemma {:induction false} TailOfTail(before: Bytes, chunk: Bytes, overlap: nat)
    ensures LastBytes(LastBytes(before, overlap) + chunk, overlap) == LastBytes(before + chunk, overlap)
  {
  }

  /** Whether a copy of `stream` must be stopped for these secrets. The empty
      secret is found in any chunk there is. */
  ghost predicate Leaks(secrets: seq<Bytes>, stream: Bytes) {
    exists s :: s in secrets && Found(s, stream)
  }

  ghost predicate Found(s: Bytes, stream: Bytes) {
    if s == [] then stream != [] else Occurs(s, stream)
  }

  /** `any(value in window for value in secrets)` */
  method AnyOccurs(secrets: seq<Bytes>, window: Bytes) returns (hit: bool)
    ensures hit <==> exists s :: s in secrets && Occurs(s, window)
  {
    hit := false;
    for k := 0 to |secrets|
      invariant hit <==> exists s :: s in secrets[..k] && Occurs(s, window)
    {
      var here := Search(secrets[k], window);
      assert secrets[..k + 1] == secrets[..k] + [secrets[k]];
      hit := hit || here;
    }
    assert secrets[..|secrets|] == secrets;
  }

  method Search(value: Bytes, window: Bytes) returns (hit: bool)
    ensures hit <==> Occurs(value, window)
  {
    hit := false;
    var i := 0;
    while i + |value| <= |window| && !hit
      invariant 0 <= i
      invariant hit ==> Occurs(value, window)
      invariant !hit ==> forall j :: 0 <= j < i ==> !OccursAt(value, window, j)
      decreases |window| - i, !hit
    {
      if window[i..i + |value|] == value {
        assert OccursAt(value, window, i);
        hit := true;
      } else {
        i := i + 1;
      }
    }
  }

  lemma {:induction false} StepLeaks(secrets: seq<Bytes>, before: Bytes, chunk: Bytes, hit: bool)
    requires chunk != [] && !Leaks(secrets, before)
    requires hit <==> exists s :: s in secrets && Occurs(s, LastBytes(before, Overlap(secrets)) + chunk)
    ensures hit <==> Leaks(secrets, before + chunk)
  {
    var window := LastBytes(before, Overlap(secrets)) + chunk;
    forall s | s in secrets
      ensures Occurs(s, window) <==> Found(s, before + chunk)
    {
      assert !Found(s, before);
      if s == [] {
        assert OccursAt([], window, 0);
      } else {
        WindowSuffices(s, before, chunk, Overlap(secrets));
      }
    }
  }

  lemma {:induction false} LeaksGrows(secrets: seq<Bytes>, a: Bytes, b: Bytes)
    requires a <= b && Leaks(secrets, a)
    ensures Leaks(secrets, b)
  {
    var s :| s in secrets && Found(s, a);
    if s != [] {
      assert b[0..|a|] == a;
      OccursInLonger(s, a, b, 0);
    }
  }

  /** Copy the chunks of a stream; `late` says after which chunk, if any, the
      deadline has passed. On success the output is the stream, byte for byte,
      and the digest has been fed exactly those bytes. */
  method CopyData(chunks: seq<Bytes>, secrets: seq<Bytes>, late: nat)
    returns (outcome: Result<nat, Error>, output: Bytes, digested: Bytes)
    requires forall c :: c in chunks ==> c != []
    ensures output <= Concat(chunks) && digested == output
    ensures outcome.Success? <==>
            late >= |chunks| && |Concat(chunks)| <= MAX_ARTIFACT_BYTES && !Leaks(secrets, Concat(chunks))
    ensures outcome.Success? ==> output == Concat(chunks) && outcome.value == |output|
    // The error is the one that stopped it.
    ensures outcome == Failure(Leaked) ==> Leaks(secrets, Concat(chunks))
    ensures outcome == Failure(TooLarge) ==> |Concat(chunks)| > MAX_ARTIFACT_BYTES
    ensures outcome == Failure(TimedOut) ==> late < |chunks|
    ensures outcome.Failure? ==> outcome.error in {Leaked, TooLarge, TimedOut}
    // Nothing that was written to disk holds a secret, however it was cut up.
    ensures !Leaks(secrets, output)
  {
    output, digested := [], [];
    var size, tail := 0, [];
    var overlap := Overlap(secrets);
    var k := 0;
    while k < |chunks|
      invariant 0 <= k <= |chunks| && k <= late
      invariant output == digested == Concat(chunks[..k])
      invariant size == |output| <= MAX_ARTIFACT_BYTES
      invariant tail == LastBytes(output, overlap)
      invariant !Leaks(secrets, output)
    {
      var chunk := chunks[k];
      assert chunk in chunks;
      ConcatSnoc(chunks, k);
      ConcatGrows(chunks, k);
      ConcatGrows(chunks, k + 1);
      if k >= late { return Failure(TimedOut), output, digested; }
      size := size + |chunk|;
      if size > MAX_ARTIFACT_BYTES { return Failure(TooLarge), output, digested; }
      var window := tail + chunk;
      var hit := AnyOccurs(secrets, window);
      StepLeaks(secrets, output, chunk, hit);
      if hit {
        LeaksGrows(secrets, output + chunk, Concat(chunks));
        return Failure(Leaked), output, digested;
      }
      TailOfTail(output, chunk, overlap);
      tail := LastBytes(window, overlap);
      digested := digested + chunk;
      output := output + chunk;
      k := k + 1;
    }
    assert chunks[..|chunks|] == chunks;
    outcome := Success(size);
  }

  /** The artifact and the partial file beside it. */
  class Destination {
    var artifact: Option<Bytes>
    var partial: Option<Bytes>

    constructor ()
      ensures artifact == None && partial == None
    {
      artifact, partial := None, None;
    }

    /** Fetch into the partial file, check it, and only then put it in place.
        The partial file is gone afterwards, whatever happened. */
    method ExecuteFetch(chunks: seq<Bytes>, secrets: seq<Bytes>, late: nat, hash: Bytes -> int, wanted: Option<int>)
      returns (outcome: Result<nat, Error>)
      requires forall c :: c in chunks ==> c != []
      modifies this
      ensures partial == None
      ensures outcome.Success? <==>
              && old(partial) == None && late >= |chunks| && |Concat(chunks)| <= MAX_ARTIFACT_BYTES
              && !Leaks(secrets, Concat(chunks)) && (wanted.Some? ==> hash(Concat(chunks)) == wanted.value)
      ensures artifact == if outcome.Success? then Some(Concat(chunks)) else old(artifact)
      ensures outcome.Success? ==> outcome.value == |Concat(chunks)|
      ensures outcome == Failure(PartialExists) <==> old(partial).Some?
      ensures outcome == Failure(DigestMismatch) ==> wanted.Some? && hash(Concat(chunks)) != wanted.value
      ensures outcome == Failure(Leaked) ==> Leaks(secrets, Concat(chunks))
    {
      if partial.Some? {
        partial := None;
        return Failure(PartialExists);
      }
      var copied, output, digested := CopyData(chunks, secrets, late);
      partial := Some(output);
      outcome := copied;
      if outcome.Success? && wanted.Some? && hash(digested) != wanted.value {
        outcome := Failure(DigestMismatch);
      }
      if outcome.Success? {
        artifact := partial;
      }
      partial := None;
    }
  }
}
