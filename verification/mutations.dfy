/** The password mutation rules of src/generator/dictionary.rs (lines
    120-153). Four rules rewrite a word; the three numeric and special
    character rules are declared but produce nothing. */
module Mutations {
  import opened Wrappers
  import opened Ascii

  datatype Mutation =
    | AppendNumbers(maxDigits: nat)
    | PrependNumbers(maxDigits: nat)
    | Capitalize
    | Uppercase
    | Lowercase
    | L33tSpeak
    | AppendSpecialChars

  /** Every occurrence of `from` replaced by `to`, as `str::replace` does
      with a one-character pattern and a one-character replacement. */
  function Replace(s: string, from: char, to: char): (r: string)
    ensures |r| == |s|
    ensures forall i :: 0 <= i < |s| ==> r[i] == (if s[i] == from then to else s[i])
  {
    seq(|s|, i requires 0 <= i < |s| => if s[i] == from then to else s[i])
  }

  /** The leet substitution as one table, applied to each character at
      once. */
  function LeetChar(c: char): char
  {
    match c
    case 'a' => '@'
    case 'e' => '3'
    case 'i' => '1'
    case 'o' => '0'
    case 's' => '$'
    case _ => c
  }

  /** The rule applied to one word; None means the rule yields no variant. */
  function Apply(m: Mutation, password: string): (r: Option<string>)
    ensures r.Some? <==> m.Uppercase? || m.Lowercase? || m.L33tSpeak? || (m.Capitalize? && |password| > 0)
    ensures r.Some? ==> |r.value| == |password|
  {
    match m
    case Capitalize =>
      if |password| == 0 then None
      else Some([ToUpper(password[0])] + Lower(password[1..]))
    case Uppercase => Some(Upper(password))
    case Lowercase => Some(Lower(password))
    case L33tSpeak =>
      Some(Replace(Replace(Replace(Replace(Replace(password, 'a', '@'), 'e', '3'), 'i', '1'), 'o', '0'), 's', '$'))
    case _ => None
  }

  /** The five replacements in a row act as one simultaneous substitution:
      no replacement character is itself replaced by a later step. */
  lemma LeetIsPerCharacter(password: string)
    ensures Apply(L33tSpeak, password).Some?
    ensures |Apply(L33tSpeak, password).value| == |password|
    ensures forall i :: 0 <= i < |password| ==> Apply(L33tSpeak, password).value[i] == LeetChar(password[i])
  {
  }

  /** Capitalize upper-cases the first character and lower-cases the rest;
      applied again it changes nothing. */
  lemma CapitalizeShape(password: string)
    requires |password| > 0
    ensures Apply(Capitalize, password).Some?
    ensures Apply(Capitalize, password).value[0] == ToUpper(password[0])
    ensures Apply(Capitalize, password).value[1..] == Lower(password[1..])
    ensures Apply(Capitalize, Apply(Capitalize, password).value) == Apply(Capitalize, password)
  {
    var r := Apply(Capitalize, password).value;
    assert r[1..] == Lower(password[1..]);
    CaseMappingsAbsorb(password[0]);
    forall i | 0 <= i < |r| - 1
      ensures ToLower(r[1..][i]) == r[1..][i]
    {
      CaseMappingsAbsorb(password[1..][i]);
    }
    assert Lower(r[1..]) == r[1..];
    assert [ToUpper(r[0])] + Lower(r[1..]) == r;
  }

  /** Upper-casing and lower-casing are idempotent, and each undoes the
      other's effect on letters. */
  lemma CaseRulesAbsorb(password: string)
    ensures Upper(Upper(password)) == Upper(password)
    ensures Lower(Lower(password)) == Lower(password)
    ensures Upper(Lower(password)) == Upper(password)
    ensures Lower(Upper(password)) == Lower(password)
  {
    forall i | 0 <= i < |password|
      ensures ToUpper(ToUpper(password[i])) == ToUpper(password[i])
      ensures ToLower(ToLower(password[i])) == ToLower(password[i])
      ensures ToUpper(ToLower(password[i])) == ToUpper(password[i])
      ensures ToLower(ToUpper(password[i])) == ToLower(password[i])
    {
      CaseMappingsAbsorb(password[i]);
    }
  }

  /** "hello" capitalizes to "Hello". */
  lemma CapitalizeExample(word: string)
    requires word == "hello"
    ensures Apply(Capitalize, word) == Some("Hello")
  {
    var r := Apply(Capitalize, word).value;
    assert r[0] == 'H';
    assert r[1..] == Lower(word[1..]);
    assert r[1] == 'e' && r[2] == 'l' && r[3] == 'l' && r[4] == 'o';
    assert r == "Hello";
  }

  /** "password" becomes "p@$$w0rd". */
  lemma LeetExample(word: string)
    requires word == "password"
    ensures Apply(L33tSpeak, word) == Some("p@$$w0rd")
  {
    LeetIsPerCharacter(word);
    var r := Apply(L33tSpeak, word).value;
    assert r[0] == 'p' && r[1] == '@' && r[2] == '$' && r[3] == '$';
    assert r[4] == 'w' && r[5] == '0' && r[6] == 'r' && r[7] == 'd';
    assert r == "p@$$w0rd";
  }
}
