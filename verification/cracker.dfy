/** The sequential skeleton of the cracking engine, src/cracker/mod.rs: how
    many worker threads to use, how the generator thread cuts the candidate
    stream into batches, how a worker runs through one batch, and what a run
    finds when the batches are checked one after another. The document's
    password check is a parameter `verify`, and the shared found flag, which
    other threads set, is given as the number of times it is read as clear
    before it is first read as set (the flag is only ever set, never
    cleared). */
module Cracker {
  import opened Wrappers
  import Generators

  /** Candidates per batch. */
  const BatchSize: nat := 500

  /** The worker thread count: an explicit count wins; otherwise the
      "balanced" mode takes one less than the physical cores, but at least
      one, and every other mode, the default "aggressive" included, takes the
      logical CPU count. */
  function ThreadCount(explicit: Option<nat>, mode: Option<string>, logical: nat, physical: nat): (r: nat)
    ensures explicit.Some? ==> r == explicit.value
    ensures explicit.None? && mode == Some("balanced") ==> r >= 1 && r <= Max(physical, 1) && (physical >= 2 ==> r == physical - 1)
    ensures explicit.None? && mode != Some("balanced") ==> r == logical
  {
    match explicit
    case Some(n) => n
    case None =>
      var chosen := match mode case Some(m) => m case None => "aggressive";
      if chosen == "balanced" then Max(if physical >= 1 then physical - 1 else 0, 1)
      else logical
  }

  /** Without an explicit count the engine never runs without workers on a
      machine that reports at least one CPU. */
  lemma AlwaysAWorker(mode: Option<string>, logical: nat, physical: nat)
    requires logical >= 1
    ensures ThreadCount(None, mode, logical, physical) >= 1
  {
  }

  /** The inner loop of the generator thread: pulls up to `n` candidates.
      The flag is set when the generator ran out before `n`. */
  function Take(s: Generators.Source, n: nat): (r: (seq<string>, Generators.Source, bool))
    requires Generators.Valid(s)
    ensures Generators.Valid(r.1)
    ensures |r.0| <= n && (!r.2 ==> |r.0| == n)
    ensures r.2 ==> r.0 == Generators.Drain(s)
    ensures !r.2 ==> r.0 + Generators.Drain(r.1) == Generators.Drain(s)
    ensures !r.2 ==> Generators.Remaining(r.1) + n <= Generators.Remaining(s)
    decreases n
  {
    if n == 0 then ([], s, false)
    else
      match Generators.Next(s)
      case (None, s') => ([], s', true)
      case (Some(w), s') =>
        Generators.NextCountsDown(s);
        var (rest, s'', ran) := Take(s', n - 1);
        ([w] + rest, s'', ran)
  }

  /** The flag reads left after one more read saw it clear. */
  function Later(clearReads: Option<nat>): Option<nat>
  {
    if clearReads.Some? && clearReads.value > 0 then Some(clearReads.value - 1) else clearReads
  }

  /** The generator thread: before every batch it reads the found flag;
      `clearReads` is how many of those reads see it clear (None: it is
      never set). A full batch is sent and the loop goes on; when the
      generator runs out, the partial batch is sent if it is not empty and
      the thread ends. */
  function Produce(s: Generators.Source, clearReads: Option<nat>): (batches: seq<seq<string>>)
    requires Generators.Valid(s)
    ensures forall k :: 0 <= k < |batches| ==> 0 < |batches[k]| <= BatchSize
    decreases Generators.Remaining(s)
  {
    if clearReads == Some(0) then []
    else
      var (batch, s', ran) := Take(s, BatchSize);
      if ran then (if |batch| > 0 then [batch] else [])
      else [batch] + Produce(s', Later(clearReads))
  }

  function Flatten<T>(xs: seq<seq<T>>): seq<T>
  {
    if |xs| == 0 then [] else xs[0] + Flatten(xs[1..])
  }

  /** Every batch is non-empty and at most `BatchSize` long, and every batch
      but the last is full. */
  predicate WellCut(batches: seq<seq<string>>)
  {
    (forall k :: 0 <= k < |batches| ==> 0 < |batches[k]| <= BatchSize)
    && (forall k :: 0 <= k < |batches| - 1 ==> |batches[k]| == BatchSize)
  }

  lemma FullBatchFirst(batch: seq<string>, later: seq<seq<string>>)
    requires |batch| == BatchSize && WellCut(later)
    ensures WellCut([batch] + later)
  {
    var batches := [batch] + later;
    forall k | 0 < k < |batches|
      ensures batches[k] == later[k - 1]
    {
    }
  }

  /** Every batch is full except possibly the last, no batch is empty, and
      no more batches are sent than the flag is read as clear. */
  lemma {:induction false} BatchesAreFull(s: Generators.Source, clearReads: Option<nat>)
    requires Generators.Valid(s)
    ensures WellCut(Produce(s, clearReads))
    ensures clearReads.Some? ==> |Produce(s, clearReads)| <= clearReads.value
    decreases Generators.Remaining(s)
  {
    if clearReads != Some(0) {
      var (batch, s', ran) := Take(s, BatchSize);
      if !ran {
        var later := Produce(s', Later(clearReads));
        assert Produce(s, clearReads) == [batch] + later;
        BatchesAreFull(s', Later(clearReads));
        FullBatchFirst(batch, later);
      }
    }
  }

  lemma FlattenCons<T>(x: seq<T>, xs: seq<seq<T>>)
    ensures Flatten([x] + xs) == x + Flatten(xs)
  {
    assert ([x] + xs)[0] == x && ([x] + xs)[1..] == xs;
  }

  /** The batches, in send order, spell out a prefix of the generator's
      output; when the flag is never set they spell out all of it, with
      nothing dropped, repeated or reordered. */
  lemma {:induction false} BatchesSpellTheOutput(s: Generators.Source, clearReads: Option<nat>)
    requires Generators.Valid(s)
    ensures Flatten(Produce(s, clearReads)) <= Generators.Drain(s)
    ensures clearReads.None? ==> Flatten(Produce(s, clearReads)) == Generators.Drain(s)
    decreases Generators.Remaining(s)
  {
    if clearReads != Some(0) {
      var (batch, s', ran) := Take(s, BatchSize);
      if ran {
        if |batch| > 0 {
          FlattenCons(batch, []);
        }
      } else {
        var later := Produce(s', Later(clearReads));
        BatchesSpellTheOutput(s', Later(clearReads));
        FlattenCons(batch, later);
        PrefixAfter(batch, Flatten(later), Generators.Drain(s'));
      }
    }
  }

  lemma PrefixAfter<T>(x: seq<T>, a: seq<T>, b: seq<T>)
    requires a <= b
    ensures x + a <= x + b
  {
    assert (x + b)[..|x + a|] == x + a;
  }

  /** Checking candidates one at a time, in order: the first one the
      document accepts and how many were checked up to and including it, or
      None and the number checked. An error from the check counts as a
      rejection. */
  function Scan(candidates: seq<string>, verify: string -> Result<bool>): (r: (Option<string>, nat))
    ensures r.1 <= |candidates|
    ensures r.0.None? ==> r.1 == |candidates|
    decreases |candidates|
  {
    if |candidates| == 0 then (None, 0)
    else if verify(candidates[0]) == Ok(true) then (Some(candidates[0]), 1)
    else
      var (found, checked) := Scan(candidates[1..], verify);
      (found, checked + 1)
  }

  /** What a scan finds: the first accepted candidate, with every earlier
      one rejected and the count including it; or, with no candidate
      accepted, None after trying them all. */
  lemma {:induction false} ScanFindsFirst(candidates: seq<string>, verify: string -> Result<bool>)
    ensures var (found, checked) := Scan(candidates, verify);
            checked <= |candidates|
            && (found.Some? ==> (checked >= 1 && candidates[checked - 1] == found.value && verify(found.value) == Ok(true)
                                 && forall j :: 0 <= j < checked - 1 ==> verify(candidates[j]) != Ok(true)))
            && (found.None? ==> (checked == |candidates| && forall j :: 0 <= j < |candidates| ==> verify(candidates[j]) != Ok(true)))
    decreases |candidates|
  {
    if |candidates| > 0 && verify(candidates[0]) != Ok(true) {
      ScanFindsFirst(candidates[1..], verify);
      var (found, checked) := Scan(candidates[1..], verify);
      forall j | 0 < j < |candidates|
        ensures candidates[j] == candidates[1..][j - 1]
      {
      }
    }
  }

  /** Scanning two lists one after the other is scanning the first and,
      only if nothing was found there, the second. */
  lemma {:induction false} ScanAppend(a: seq<string>, b: seq<string>, verify: string -> Result<bool>)
    ensures Scan(a, verify).0.Some? ==> Scan(a + b, verify) == Scan(a, verify)
    ensures Scan(a, verify).0.None? ==> Scan(a + b, verify) == (Scan(b, verify).0, |a| + Scan(b, verify).1)
    decreases |a|
  {
    if |a| == 0 {
      assert a + b == b;
    } else {
      assert (a + b)[0] == a[0] && (a + b)[1..] == a[1..] + b;
      ScanAppend(a[1..], b, verify);
    }
  }

  /** A worker's loop over one batch: before each candidate it reads the
      found flag (`clearReads` of those reads see it clear), counts an
      attempt, and stops after the first candidate the document accepts. */
  method CheckBatch(batch: seq<string>, verify: string -> Result<bool>, clearReads: Option<nat>)
    returns (found: Option<string>, attempts: nat)
    ensures var limit := if clearReads.Some? && clearReads.value < |batch| then clearReads.value else |batch|;
            (found, attempts) == Scan(batch[..limit], verify)
  {
    var limit := if clearReads.Some? && clearReads.value < |batch| then clearReads.value else |batch|;
    ghost var all := batch[..limit];
    found := None;
    attempts := 0;
    var i := 0;
    while i < |batch|
      invariant i <= limit && attempts == i && found.None?
      invariant Scan(all, verify) == (Scan(all[i..], verify).0, i + Scan(all[i..], verify).1)
    {
      if clearReads.Some? && i >= clearReads.value {
        assert all[i..] == [];
        return;
      }
      assert all[i] == batch[i];
      attempts := attempts + 1;
      if verify(batch[i]) == Ok(true) {
        ScanStep(all, i, verify);
        found := Some(batch[i]);
        return;
      }
      ScanPast(all, i, verify);
      i := i + 1;
    }
    assert all[i..] == [];
  }

  /** A rejected candidate at position `i` moves the scan on by one. */
  lemma ScanPast(candidates: seq<string>, i: nat, verify: string -> Result<bool>)
    requires i < |candidates| && verify(candidates[i]) != Ok(true)
    requires Scan(candidates, verify) == (Scan(candidates[i..], verify).0, i + Scan(candidates[i..], verify).1)
    ensures Scan(candidates, verify) == (Scan(candidates[i + 1..], verify).0, i + 1 + Scan(candidates[i + 1..], verify).1)
  {
    ScanStep(candidates, i, verify);
    OneFurther(Scan(candidates, verify), Scan(candidates[i..], verify), Scan(candidates[i + 1..], verify), i);
  }

  /** The count arithmetic of `ScanPast`, on plain values. */
  lemma OneFurther(whole: (Option<string>, nat), from: (Option<string>, nat), after: (Option<string>, nat), i: nat)
    requires whole == (from.0, i + from.1) && from == (after.0, after.1 + 1)
    ensures whole == (after.0, i + 1 + after.1)
  {
  }

  /** Scanning from position `i`: either the candidate there is accepted, or
      the scan goes on from `i + 1`. */
  lemma ScanStep(candidates: seq<string>, i: nat, verify: string -> Result<bool>)
    requires i < |candidates|
    ensures verify(candidates[i]) == Ok(true) ==> Scan(candidates[i..], verify) == (Some(candidates[i]), 1)
    ensures verify(candidates[i]) != Ok(true) ==>
              Scan(candidates[i..], verify) == (Scan(candidates[i + 1..], verify).0, Scan(candidates[i + 1..], verify).1 + 1)
  {
    assert candidates[i..][0] == candidates[i] && candidates[i..][1..] == candidates[i + 1..];
  }

  /** A run with the batches checked one after another by a single worker:
      a batch is skipped once the password is found, and the attempts of all
      batches add up. */
  method CheckBatches(batches: seq<seq<string>>, verify: string -> Result<bool>)
    returns (found: Option<string>, attempts: nat)
    ensures (found, attempts) == Scan(Flatten(batches), verify)
  {
    found := None;
    attempts := 0;
    var i := 0;
    while i < |batches|
      invariant i <= |batches|
      invariant found.None? ==> (found, attempts) == Scan(Flatten(batches[..i]), verify)
      invariant found.Some? ==> (found, attempts) == Scan(Flatten(batches), verify)
    {
      if found.Some? {
        break;
      }
      var f, a := CheckBatch(batches[i], verify, None);
      assert batches[i][..|batches[i]|] == batches[i];
      FlattenSnoc(batches, i);
      ScanFindsFirst(Flatten(batches[..i]), verify);
      ScanAppend(Flatten(batches[..i]), batches[i], verify);
      if f.Some? {
        ScanAppend(Flatten(batches[..i + 1]), Flatten(batches[i + 1..]), verify);
        FlattenSplit(batches, i + 1);
      }
      found := f;
      attempts := attempts + a;
      i := i + 1;
    }
    if found.None? {
      assert batches[..i] == batches;
    }
  }

  lemma {:induction false} FlattenAppend<T>(a: seq<seq<T>>, b: seq<seq<T>>)
    ensures Flatten(a + b) == Flatten(a) + Flatten(b)
    decreases |a|
  {
    if |a| == 0 {
      assert a + b == b;
    } else {
      assert (a + b)[0] == a[0] && (a + b)[1..] == a[1..] + b;
      FlattenAppend(a[1..], b);
    }
  }

  lemma FlattenSnoc<T>(xs: seq<seq<T>>, i: nat)
    requires i < |xs|
    ensures Flatten(xs[..i + 1]) == Flatten(xs[..i]) + xs[i]
  {
    assert xs[..i + 1] == xs[..i] + [xs[i]];
    FlattenAppend(xs[..i], [xs[i]]);
    assert Flatten([xs[i]]) == xs[i] + Flatten([xs[i]][1..]);
    assert [xs[i]][1..] == [];
  }

  lemma FlattenSplit<T>(xs: seq<seq<T>>, i: nat)
    requires i <= |xs|
    ensures Flatten(xs) == Flatten(xs[..i]) + Flatten(xs[i..])
  {
    assert xs == xs[..i] + xs[i..];
    FlattenAppend(xs[..i], xs[i..]);
  }

  /** A whole run, producer first and then one idealised worker that checks
      the batches in the order they were sent: it finds the first
      candidate, in the generator's order, that the document accepts, after
      exactly as many attempts as candidates up to and including it; if
      there is none, every candidate is tried once. */
  method Crack(s: Generators.Source, verify: string -> Result<bool>) returns (found: Option<string>, attempts: nat)
    requires Generators.Valid(s)
    ensures (found, attempts) == Scan(Generators.Drain(s), verify)
  {
    var batches := Produce(s, None);
    BatchesSpellTheOutput(s, None);
    found, attempts := CheckBatches(batches, verify);
  }
}
