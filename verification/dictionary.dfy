/** The dictionary generator of src/generator/dictionary.rs: a word list
    read from one file or from every `.txt` file under a directory, cleaned
    line by line, stripped of repeated words, optionally widened by mutation
    rules, and handed out one word at a time. The file system is given as
    data: a file is the sequence of its lines, None standing for a line that
    could not be decoded. */
module Dictionary {
  import opened Wrappers
  import opened Ascii
  import opened Mutations

  /** A trimmed line becomes a password when it is not empty and is not a
      comment. */
  predicate IsEntry(t: string)
  {
    |t| > 0 && t[0] != '#'
  }

  /** The line yields the password `w`. */
  predicate Yields(line: Option<string>, w: string)
  {
    line.Some? && Trim(line.value) == w && IsEntry(w)
  }

  /** The passwords one file contributes, in file order: each decodable line
      trimmed, blank lines and comment lines dropped. */
  function LoadLines(lines: seq<Option<string>>): (r: seq<string>)
    ensures |r| <= |lines|
    ensures forall k :: 0 <= k < |r| ==> IsEntry(r[k]) && Trim(r[k]) == r[k]
    decreases |lines|
  {
    if |lines| == 0 then []
    else
      var earlier := LoadLines(lines[..|lines| - 1]);
      var line := lines[|lines| - 1];
      if line.Some? && IsEntry(Trim(line.value)) then
        TrimIdempotent(line.value);
        earlier + [Trim(line.value)]
      else earlier
  }

  /** A word is loaded exactly when some line yields it. */
  lemma {:induction false} LoadedIff(lines: seq<Option<string>>, w: string)
    ensures w in LoadLines(lines) <==> exists i :: 0 <= i < |lines| && Yields(lines[i], w)
    decreases |lines|
  {
    if |lines| > 0 {
      var front := lines[..|lines| - 1];
      var last := lines[|lines| - 1];
      LoadedIff(front, w);
      LastLineLoaded(lines, w);
      SomeLineYields(lines, front, w);
    }
  }

  lemma LastLineLoaded(lines: seq<Option<string>>, w: string)
    requires |lines| > 0
    ensures w in LoadLines(lines) <==> w in LoadLines(lines[..|lines| - 1]) || Yields(lines[|lines| - 1], w)
  {
    var last := lines[|lines| - 1];
    if last.Some? && IsEntry(Trim(last.value)) {
      assert LoadLines(lines) == LoadLines(lines[..|lines| - 1]) + [Trim(last.value)];
    } else {
      assert LoadLines(lines) == LoadLines(lines[..|lines| - 1]);
    }
  }

  lemma SomeLineYields(lines: seq<Option<string>>, front: seq<Option<string>>, w: string)
    requires |lines| > 0 && front == lines[..|lines| - 1]
    ensures (exists i :: 0 <= i < |lines| && Yields(lines[i], w))
        <==> (exists i :: 0 <= i < |front| && Yields(front[i], w)) || Yields(lines[|lines| - 1], w)
  {
    forall i | 0 <= i < |front|
      ensures lines[i] == front[i]
    {
    }
  }

  /** Loading two files one after the other gives the first file's passwords
      followed by the second's. */
  lemma {:induction false} LoadLinesAppend(a: seq<Option<string>>, b: seq<Option<string>>)
    ensures LoadLines(a + b) == LoadLines(a) + LoadLines(b)
    decreases |b|
  {
    if |b| == 0 {
      assert a + b == a;
    } else {
      var b' := b[..|b| - 1];
      assert (a + b)[..|a + b| - 1] == a + b';
      assert (a + b)[|a + b| - 1] == b[|b| - 1];
      LoadLinesAppend(a, b');
    }
  }

  /** The line loop of `load_file`, pushing onto the words gathered so far. */
  method LoadFile(passwords: seq<string>, lines: seq<Option<string>>) returns (r: seq<string>)
    ensures r == passwords + LoadLines(lines)
  {
    r := passwords;
    var i := 0;
    while i < |lines|
      invariant i <= |lines|
      invariant r == passwords + LoadLines(lines[..i])
    {
      LoadLinesSnoc(lines, i);
      var line := lines[i];
      if line.Some? {
        var password := Trim(line.value);
        if |password| > 0 && password[0] != '#' {
          r := r + [password];
        }
      }
      i := i + 1;
    }
    assert lines[..i] == lines;
  }

  /** One more line adds its password, if it yields one. */
  lemma LoadLinesSnoc(lines: seq<Option<string>>, i: nat)
    requires i < |lines|
    ensures lines[i].Some? && IsEntry(Trim(lines[i].value)) ==>
              LoadLines(lines[..i + 1]) == LoadLines(lines[..i]) + [Trim(lines[i].value)]
    ensures !(lines[i].Some? && IsEntry(Trim(lines[i].value))) ==> LoadLines(lines[..i + 1]) == LoadLines(lines[..i])
  {
    assert lines[..i + 1][..i] == lines[..i];
  }

  /** An entry of a directory: a file named `*.txt`, any other file, or a
      sub-directory. */
  datatype Node =
    | TextFile(lines: seq<Option<string>>)
    | OtherFile
    | Folder(children: seq<Node>)

  /** What the dictionary path names. */
  datatype Path =
    | File(lines: seq<Option<string>>)
    | Directory(children: seq<Node>)
    | Neither(name: string)

  /** The passwords of a directory listing, entries in listing order,
      sub-directories loaded in place. */
  function LoadTree(nodes: seq<Node>): seq<string>
    decreases nodes
  {
    if |nodes| == 0 then [] else LoadNode(nodes[0]) + LoadTree(nodes[1..])
  }

  function LoadNode(n: Node): seq<string>
    decreases n
  {
    match n
    case TextFile(lines) => LoadLines(lines)
    case OtherFile => []
    case Folder(children) => LoadTree(children)
  }

  /** The lines of every `.txt` file below a listing, in the order the walk
      visits them. */
  function TextLines(nodes: seq<Node>): seq<Option<string>>
    decreases nodes
  {
    if |nodes| == 0 then [] else NodeLines(nodes[0]) + TextLines(nodes[1..])
  }

  function NodeLines(n: Node): seq<Option<string>>
    decreases n
  {
    match n
    case TextFile(lines) => lines
    case OtherFile => []
    case Folder(children) => TextLines(children)
  }

  /** A directory loads as if all its `.txt` files, in walk order, were one
      file; other files contribute nothing. */
  lemma {:induction false} TreeIsOneFile(nodes: seq<Node>)
    ensures LoadTree(nodes) == LoadLines(TextLines(nodes))
    decreases nodes
  {
    if |nodes| > 0 {
      NodeIsOneFile(nodes[0]);
      TreeIsOneFile(nodes[1..]);
      LoadLinesAppend(NodeLines(nodes[0]), TextLines(nodes[1..]));
    }
  }

  lemma {:induction false} NodeIsOneFile(n: Node)
    ensures LoadNode(n) == LoadLines(NodeLines(n))
    decreases n
  {
    match n
    case TextFile(_) =>
    case OtherFile =>
    case Folder(children) => TreeIsOneFile(children);
  }

  /** Every word the path provides, before repeated words are removed. */
  function Load(path: Path): seq<string>
  {
    match path
    case File(lines) => LoadLines(lines)
    case Directory(children) => LoadTree(children)
    case Neither(_) => []
  }

  predicate NoDuplicates<T(==)>(s: seq<T>)
  {
    forall i, j :: 0 <= i < j < |s| ==> s[i] != s[j]
  }

  /** Each element at its first occurrence, later repeats dropped. */
  function FirstOccurrences<T(==)>(s: seq<T>): seq<T>
    decreases |s|
  {
    if |s| == 0 then []
    else
      var earlier := FirstOccurrences(s[..|s| - 1]);
      if s[|s| - 1] in s[..|s| - 1] then earlier else earlier + [s[|s| - 1]]
  }

  /** Removing repeats keeps every element, and keeps it once. */
  lemma {:induction false} FirstOccurrencesFacts<T>(s: seq<T>)
    ensures forall x :: x in FirstOccurrences(s) <==> x in s
    ensures NoDuplicates(FirstOccurrences(s))
    decreases |s|
  {
    if |s| > 0 {
      var front := s[..|s| - 1];
      FirstOccurrencesFacts(front);
      assert s == front + [s[|s| - 1]];
    }
  }

  /** A sequence without repeats is left as it is. */
  lemma {:induction false} FirstOccurrencesOfDistinct<T>(s: seq<T>)
    requires NoDuplicates(s)
    ensures FirstOccurrences(s) == s
    decreases |s|
  {
    if |s| > 0 {
      var front := s[..|s| - 1];
      assert NoDuplicates(front);
      FirstOccurrencesOfDistinct(front);
      assert s[|s| - 1] !in front;
      assert s == front + [s[|s| - 1]];
    }
  }

  /** Removing repeats twice removes nothing more. */
  lemma FirstOccurrencesIdempotent<T>(s: seq<T>)
    ensures FirstOccurrences(FirstOccurrences(s)) == FirstOccurrences(s)
  {
    FirstOccurrencesFacts(s);
    FirstOccurrencesOfDistinct(FirstOccurrences(s));
  }

  /** The `retain` pass of `new`: a word is kept when inserting it into the
      set of words seen so far succeeds. */
  method Dedup<T(==)>(s: seq<T>) returns (r: seq<T>)
    ensures r == FirstOccurrences(s)
  {
    r := [];
    var seen: set<T> := {};
    var i := 0;
    while i < |s|
      invariant i <= |s|
      invariant r == FirstOccurrences(s[..i])
      invariant forall x :: x in seen <==> x in s[..i]
    {
      assert s[..i + 1][..i] == s[..i] && s[..i + 1][i] == s[i];
      if s[i] !in seen {
        seen := seen + {s[i]};
        r := r + [s[i]];
      }
      assert forall x :: x in s[..i + 1] <==> x in s[..i] || x == s[i];
      i := i + 1;
    }
    assert s[..i] == s;
  }

  datatype Generator = Generator(passwords: seq<string>, currentIndex: nat)

  const NeitherMessage: string := "Path is neither a file nor a directory: "
  const EmptyMessage: string := "No passwords found in the specified path"

  /** Builds the generator: the path must name a file or a directory, it
      must provide at least one password, and repeated words are dropped,
      keeping first occurrences. */
  function New(path: Path): (r: Result<Generator>)
    ensures r.Err? <==> path.Neither? || |Load(path)| == 0
    ensures path.Neither? ==> r == Err(NeitherMessage + "\"" + path.name + "\"")
    ensures !path.Neither? && |Load(path)| == 0 ==> r == Err(EmptyMessage)
    ensures r.Ok? ==> r.value.currentIndex == 0 && NoDuplicates(r.value.passwords)
    ensures r.Ok? ==> forall w :: w in r.value.passwords <==> w in Load(path)
    ensures r.Ok? ==> r.value.passwords == FirstOccurrences(Load(path))
  {
    if path.Neither? then Err(NeitherMessage + "\"" + path.name + "\"")
    else
      var loaded := Load(path);
      if |loaded| == 0 then Err(EmptyMessage)
      else
        FirstOccurrencesFacts(loaded);
        Ok(Generator(FirstOccurrences(loaded), 0))
  }

  /** The successful results of the rules on one word, in rule order. */
  function Variants(password: string, rules: seq<Mutation>): (r: seq<string>)
    ensures |r| <= |rules|
    decreases |rules|
  {
    if |rules| == 0 then []
    else
      var earlier := Variants(password, rules[..|rules| - 1]);
      match Apply(rules[|rules| - 1], password)
      case Some(v) => earlier + [v]
      case None => earlier
  }

  /** Each word followed by its variants, words in list order. */
  function Expand(passwords: seq<string>, rules: seq<Mutation>): seq<string>
    decreases |passwords|
  {
    if |passwords| == 0 then []
    else
      var last := passwords[|passwords| - 1];
      Expand(passwords[..|passwords| - 1], rules) + [last] + Variants(last, rules)
  }

  /** The loops of `with_mutations`; the position in the list is kept. */
  method WithMutations(g: Generator, rules: seq<Mutation>) returns (r: Generator)
    ensures r.passwords == Expand(g.passwords, rules)
    ensures r.currentIndex == g.currentIndex
  {
    var mutated: seq<string> := [];
    var i := 0;
    while i < |g.passwords|
      invariant i <= |g.passwords|
      invariant mutated == Expand(g.passwords[..i], rules)
    {
      var password := g.passwords[i];
      assert g.passwords[..i + 1][..i] == g.passwords[..i];
      var before := mutated + [password];
      mutated := before;
      var j := 0;
      while j < |rules|
        invariant j <= |rules|
        invariant mutated == before + Variants(password, rules[..j])
      {
        assert rules[..j + 1][..j] == rules[..j];
        var m := Apply(rules[j], password);
        if m.Some? {
          mutated := mutated + [m.value];
        }
        j := j + 1;
      }
      assert rules[..j] == rules;
      i := i + 1;
    }
    assert g.passwords[..i] == g.passwords;
    r := Generator(mutated, g.currentIndex);
  }

  /** Expansion works word by word, so it distributes over concatenation. */
  lemma {:induction false} ExpandAppend(a: seq<string>, b: seq<string>, rules: seq<Mutation>)
    ensures Expand(a + b, rules) == Expand(a, rules) + Expand(b, rules)
    decreases |b|
  {
    if |b| == 0 {
      assert a + b == a;
    } else {
      var b' := b[..|b| - 1];
      assert (a + b)[..|a + b| - 1] == a + b';
      assert (a + b)[|a + b| - 1] == b[|b| - 1];
      ExpandAppend(a, b', rules);
    }
  }

  /** Every word survives expansion, and each word adds at most one variant
      per rule. */
  lemma {:induction false} ExpandBounds(passwords: seq<string>, rules: seq<Mutation>)
    ensures |passwords| <= |Expand(passwords, rules)| <= |passwords| * (|rules| + 1)
    ensures forall w :: w in passwords ==> w in Expand(passwords, rules)
    decreases |passwords|
  {
    if |passwords| > 0 {
      var front := passwords[..|passwords| - 1];
      ExpandBounds(front, rules);
      assert |passwords| * (|rules| + 1) == |front| * (|rules| + 1) + |rules| + 1;
      assert passwords == front + [passwords[|passwords| - 1]];
    }
  }

  /** The rules that are declared but not implemented. */
  predicate Unimplemented(m: Mutation)
  {
    m.AppendNumbers? || m.PrependNumbers? || m.AppendSpecialChars?
  }

  /** Rules that produce nothing leave the word list unchanged; in
      particular an empty rule list does. */
  lemma {:induction false} ExpandWithoutEffect(passwords: seq<string>, rules: seq<Mutation>)
    requires forall k :: 0 <= k < |rules| ==> Unimplemented(rules[k])
    ensures Expand(passwords, rules) == passwords
    decreases |passwords|
  {
    if |passwords| > 0 {
      var front := passwords[..|passwords| - 1];
      ExpandWithoutEffect(front, rules);
      NoVariants(passwords[|passwords| - 1], rules);
      assert passwords == front + [passwords[|passwords| - 1]];
    }
  }

  lemma {:induction false} NoVariants(password: string, rules: seq<Mutation>)
    requires forall k :: 0 <= k < |rules| ==> Unimplemented(rules[k])
    ensures Variants(password, rules) == []
    decreases |rules|
  {
    if |rules| > 0 {
      NoVariants(password, rules[..|rules| - 1]);
    }
  }

  /** Hands out the word at the current position and moves past it, or
      nothing once the list is used up. */
  function Next(g: Generator): (r: (Option<string>, Generator))
    ensures r.1.passwords == g.passwords
    ensures g.currentIndex < |g.passwords| ==> r == (Some(g.passwords[g.currentIndex]), g.(currentIndex := g.currentIndex + 1))
    ensures g.currentIndex >= |g.passwords| ==> r == (None, g)
  {
    if g.currentIndex < |g.passwords| then
      (Some(g.passwords[g.currentIndex]), g.(currentIndex := g.currentIndex + 1))
    else (None, g)
  }

  /** Starts the list over. */
  function Reset(g: Generator): (r: Generator)
    ensures r.passwords == g.passwords && r.currentIndex == 0
  {
    g.(currentIndex := 0)
  }

  /** The number of words in the list, wherever the position is. */
  function TotalCombinations(g: Generator): (r: Option<nat>)
  {
    Some(|g.passwords|)
  }

  /** Every word the generator still hands out, in order. */
  function Drain(g: Generator): seq<string>
    decreases |g.passwords| - g.currentIndex
  {
    match Next(g)
    case (None, _) => []
    case (Some(w), g') => [w] + Drain(g')
  }

  /** The generator hands out the rest of its list, from the current
      position to the end. */
  lemma {:induction false} DrainIsSuffix(g: Generator)
    ensures g.currentIndex <= |g.passwords| ==> Drain(g) == g.passwords[g.currentIndex..]
    ensures g.currentIndex > |g.passwords| ==> Drain(g) == []
    decreases |g.passwords| - g.currentIndex
  {
    if g.currentIndex < |g.passwords| {
      var g' := Next(g).1;
      DrainIsSuffix(g');
      assert g.passwords[g.currentIndex..] == [g.passwords[g.currentIndex]] + g.passwords[g'.currentIndex..];
    }
  }

  /** After a reset the generator replays its whole list, and the count it
      reports is the number of words it hands out. */
  lemma ResetReplays(g: Generator)
    ensures Drain(Reset(g)) == g.passwords
    ensures TotalCombinations(g) == Some(|Drain(Reset(g))|)
  {
    DrainIsSuffix(Reset(g));
  }

  /** A freshly built generator hands out each loaded word once, in the
      order of first appearance. */
  lemma DrainNew(path: Path)
    requires New(path).Ok?
    ensures Drain(New(path).value) == FirstOccurrences(Load(path))
  {
    DrainIsSuffix(New(path).value);
  }

  /** A word made only of non-blank, non-comment characters at its ends is
      loaded unchanged. */
  lemma TrimPlain(w: string)
    requires |w| > 0 && !IsWhitespace(w[0]) && !IsWhitespace(w[|w| - 1])
    ensures Trim(w) == w
  {
    assert ContentStart(w) == 0;
    assert w[0..] == w;
    assert ContentEnd(w) == |w|;
  }

  /** A file holding password1, password2 and password3 loads as those
      three words, in order, from the first. */
  lemma ThreeWordFile(p1: string, p2: string, p3: string)
    requires p1 == "password1" && p2 == "password2" && p3 == "password3"
    ensures New(File([Some(p1), Some(p2), Some(p3)])) == Ok(Generator([p1, p2, p3], 0))
  {
    ThreeWordsLoaded(p1, p2, p3);
    var loaded := [p1, p2, p3];
    assert NoDuplicates(loaded) by {
      assert p1[8] != p2[8] && p1[8] != p3[8] && p2[8] != p3[8];
    }
    FirstOccurrencesOfDistinct(loaded);
  }

  /** Such a generator yields the three words, then nothing; after a reset
      it starts again at the first. */
  lemma ThreeWordRun(g0: Generator, p1: string, p2: string, p3: string)
    requires g0 == Generator([p1, p2, p3], 0)
    ensures var (w1, g1) := Next(g0);
            var (w2, g2) := Next(g1);
            var (w3, g3) := Next(g2);
            var (w4, g4) := Next(g3);
            w1 == Some(p1) && w2 == Some(p2) && w3 == Some(p3) && w4 == None
            && Next(Reset(g4)).0 == Some(p1)
  {
  }

  lemma ThreeWordsLoaded(p1: string, p2: string, p3: string)
    requires p1 == "password1" && p2 == "password2" && p3 == "password3"
    ensures LoadLines([Some(p1), Some(p2), Some(p3)]) == [p1, p2, p3]
  {
    var lines := [Some(p1), Some(p2), Some(p3)];
    TrimPlain(p1);
    TrimPlain(p2);
    TrimPlain(p3);
    assert LoadLines(lines[..1]) == [p1] by {
      assert lines[..1][..0] == [];
    }
    assert LoadLines(lines[..2]) == [p1, p2] by {
      assert lines[..2][..1] == lines[..1];
    }
    assert lines[..2] == lines[..|lines| - 1];
  }
}
