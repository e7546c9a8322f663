/** The common face of the candidate generators, src/generator/mod.rs: the
    mode a generator is built from, the dispatch that builds it, and the
    three operations every generator offers (next candidate, reset, count).
    The Rust trait object becomes a sum of the two implementations. */
module Generators {
  import opened Wrappers
  import BruteForce
  import Dictionary
  import Odometer

  datatype Mode =
    | DictionaryMode(path: Dictionary.Path)
    | BruteForceMode(charset: string, minLength: nat, maxLength: nat)
    | HybridMode(dictionaryPath: Dictionary.Path, appendNumbers: bool, appendSpecial: bool)

  datatype Source =
    | OfDictionary(dictionary: Dictionary.Generator)
    | OfBruteForce(bruteForce: BruteForce.Generator)

  predicate Valid(s: Source)
  {
    s.OfBruteForce? ==> BruteForce.Valid(s.bruteForce)
  }

  /** Builds the generator a mode asks for; a construction error is passed
      on unchanged. The hybrid mode is not implemented and panics, so it is
      excluded here. */
  function Create(mode: Mode): (r: Result<Source>)
    requires !mode.HybridMode?
    ensures r.Ok? ==> Valid(r.value)
    ensures mode.DictionaryMode? ==> (r.Ok? <==> Dictionary.New(mode.path).Ok?)
    ensures mode.DictionaryMode? && r.Err? ==> r.message == Dictionary.New(mode.path).message
    ensures mode.BruteForceMode? ==> (r.Ok? <==> BruteForce.New(mode.charset, mode.minLength, mode.maxLength).Ok?)
    ensures mode.BruteForceMode? && r.Err? ==> r.message == BruteForce.New(mode.charset, mode.minLength, mode.maxLength).message
  {
    match mode
    case DictionaryMode(path) =>
      (match Dictionary.New(path)
       case Ok(d) => Ok(OfDictionary(d))
       case Err(e) => Err(e))
    case BruteForceMode(charset, minLength, maxLength) =>
      (match BruteForce.New(charset, minLength, maxLength)
       case Ok(b) => Ok(OfBruteForce(b))
       case Err(e) => Err(e))
  }

  function Next(s: Source): (r: (Option<string>, Source))
    requires Valid(s)
    ensures Valid(r.1) && r.1.OfDictionary? == s.OfDictionary?
  {
    match s
    case OfDictionary(d) =>
      var (w, d') := Dictionary.Next(d);
      (w, OfDictionary(d'))
    case OfBruteForce(b) =>
      var (w, b') := BruteForce.Next(b);
      (w, OfBruteForce(b'))
  }

  function Reset(s: Source): (r: Source)
    requires Valid(s)
    ensures Valid(r) && r.OfDictionary? == s.OfDictionary?
  {
    match s
    case OfDictionary(d) => OfDictionary(Dictionary.Reset(d))
    case OfBruteForce(b) => OfBruteForce(BruteForce.Reset(b))
  }

  /** The count each implementation reports; for brute force it is None
      when some length class has more than 2^64 - 1 candidates, and
      otherwise the number of words over all lengths, saturated at
      2^64 - 1. */
  method TotalCombinations(s: Source) returns (r: Option<nat>)
    requires Valid(s)
    ensures s.OfDictionary? ==> r == Some(|s.dictionary.passwords|)
    ensures s.OfBruteForce? ==> (r.None? <==> exists len :: s.bruteForce.minLength <= len <= s.bruteForce.maxLength
                                                 && Odometer.Pow(|s.bruteForce.charset|, len) > BruteForce.U64Max)
    ensures s.OfBruteForce? && r.Some? ==>
              r.value == Min(BruteForce.SumPow(|s.bruteForce.charset|, s.bruteForce.minLength, s.bruteForce.maxLength), BruteForce.U64Max)
  {
    match s
    case OfDictionary(d) =>
      r := Dictionary.TotalCombinations(d);
    case OfBruteForce(b) =>
      r := BruteForce.TotalCombinations(b);
  }

  /** How many more candidates `Next` returns; it drops by one with every
      candidate. */
  function Remaining(s: Source): nat
    requires Valid(s)
  {
    match s
    case OfDictionary(d) => if d.currentIndex < |d.passwords| then |d.passwords| - d.currentIndex else 0
    case OfBruteForce(b) => BruteForce.Remaining(b)
  }

  lemma NextCountsDown(s: Source)
    requires Valid(s)
    ensures Next(s).0.Some? ==> Remaining(Next(s).1) < Remaining(s)
  {
    if s.OfBruteForce? {
      BruteForce.NextCountsDown(s.bruteForce);
    }
  }

  /** Everything `Next` returns through the common interface, in order,
      until the first None. */
  function Drain(s: Source): seq<string>
    requires Valid(s)
    decreases Remaining(s)
  {
    match Next(s)
    case (None, _) => []
    case (Some(w), s') =>
      NextCountsDown(s);
      [w] + Drain(s')
  }

  /** Driving a generator through the common interface yields exactly what
      the implementation itself yields. */
  lemma {:induction false} DrainDelegates(s: Source)
    requires Valid(s)
    ensures s.OfDictionary? ==> Drain(s) == Dictionary.Drain(s.dictionary)
    ensures s.OfBruteForce? ==> Drain(s) == BruteForce.Drain(s.bruteForce)
    decreases Remaining(s)
  {
    if Next(s).0.Some? {
      NextCountsDown(s);
      DrainDelegates(Next(s).1);
    }
  }

  /** What a freshly created generator yields: the loaded words without
      repeats for a dictionary, and every word from the minimum to the
      maximum length, shortest first, for brute force. */
  lemma CreateYields(mode: Mode)
    requires !mode.HybridMode? && Create(mode).Ok?
    ensures mode.DictionaryMode? ==> Drain(Create(mode).value) == Dictionary.FirstOccurrences(Dictionary.Load(mode.path))
    ensures mode.BruteForceMode? && mode.minLength >= 1 ==>
              Drain(Create(mode).value) == BruteForce.Enumerate(mode.charset, mode.minLength, mode.maxLength)
  {
    DrainDelegates(Create(mode).value);
    match mode
    case DictionaryMode(path) =>
      Dictionary.DrainNew(path);
    case BruteForceMode(charset, minLength, maxLength) =>
      if minLength >= 1 {
        BruteForce.DrainNew(charset, minLength, maxLength);
      }
  }

  /** After a reset a generator starts over: a dictionary replays its whole
      list, a brute-force generator is the one its settings create. */
  lemma ResetStartsOver(s: Source)
    requires Valid(s)
    ensures s.OfDictionary? ==> Drain(Reset(s)) == s.dictionary.passwords
    ensures s.OfBruteForce? ==> Create(BruteForceMode(s.bruteForce.charset, s.bruteForce.minLength, s.bruteForce.maxLength))
                                == Ok(Reset(s))
  {
    DrainDelegates(Reset(s));
    match s
    case OfDictionary(d) =>
      Dictionary.ResetReplays(d);
    case OfBruteForce(b) =>
      BruteForce.ResetIsNew(b);
  }
}
