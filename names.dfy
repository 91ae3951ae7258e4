/**
 * `fruitname()` from utils/utils.py with its two random choices taken as
 * parameters: `f"{name} {fruit}".lower().replace(" ", "_")`.  Lower-casing
 * covers ASCII letters only.
 */
module Names {

  predicate IsUpper(c: char) {
    'A' <= c <= 'Z'
  }

  function LowerChar(c: char): (l: char)
    ensures !IsUpper(l)
    ensures IsUpper(c) ==> l as int == c as int + 32
    ensures !IsUpper(c) ==> l == c
  {
    if IsUpper(c) then (c as int + 32) as char else c
  }

  /** `str.lower()` on ASCII. */
  function Lower(s: string): (r: string)
    ensures |r| == |s|
    ensures forall i :: 0 <= i < |s| ==> r[i] == LowerChar(s[i])
  {
    if s == [] then [] else [LowerChar(s[0])] + Lower(s[1..])
  }

  function Underscore(c: char): char {
    if c == ' ' then '_' else c
  }

  /** `str.replace(" ", "_")`. */
  function ReplaceSpaces(s: string): (r: string)
    ensures |r| == |s|
    ensures forall i :: 0 <= i < |s| ==> r[i] == Underscore(s[i])
  {
    if s == [] then [] else [Underscore(s[0])] + ReplaceSpaces(s[1..])
  }

  /** The normalisation `fruitname` applies to the joined string. */
  function Normalize(s: string): string {
    ReplaceSpaces(Lower(s))
  }

  /** The result has no spaces and no upper-case letters, one character per input character plus the separator. */
  function FruitName(name: string, fruit: string): (r: string)
    ensures |r| == |name| + 1 + |fruit|
    ensures forall i :: 0 <= i < |r| ==> r[i] != ' ' && !IsUpper(r[i])
  {
    Normalize(name + " " + fruit)
  }

  /** Normalisation works character by character. */
  lemma NormalizeAt(s: string, i: int)
    requires 0 <= i < |s|
    ensures |Normalize(s)| == |s| && Normalize(s)[i] == Underscore(LowerChar(s[i]))
  {
  }

  /** Normalisation distributes over concatenation. */
  lemma NormalizeConcat(a: string, b: string)
    ensures Normalize(a + b) == Normalize(a) + Normalize(b)
  {
    var l, r := Normalize(a + b), Normalize(a) + Normalize(b);
    assert |l| == |a| + |b| == |r|;
    forall i | 0 <= i < |l| ensures l[i] == r[i] {
      NormalizeAt(a + b, i);
      if i < |a| {
        NormalizeAt(a, i);
        assert (a + b)[i] == a[i];
      } else {
        NormalizeAt(b, i - |a|);
        assert (a + b)[i] == b[i - |a|];
      }
    }
  }

  /**
   * The result is the normalised name, an underscore, and the normalised fruit
   * (spaces inside either also become underscores), one character per input
   * character plus the separator.
   */
  lemma FruitNameParts(name: string, fruit: string)
    ensures FruitName(name, fruit) == Normalize(name) + "_" + Normalize(fruit)
    ensures |FruitName(name, fruit)| == |name| + 1 + |fruit|
  {
    NormalizeConcat(name + " ", fruit);
    NormalizeConcat(name, " ");
    assert Normalize(" ") == "_";
  }

  /** Normalising a result again changes nothing. */
  lemma NormalizeIdempotent(s: string)
    ensures Normalize(Normalize(s)) == Normalize(s)
  {
    var once := Normalize(s);
    forall i | 0 <= i < |once| ensures Normalize(once)[i] == once[i] {
      assert once[i] == Underscore(LowerChar(s[i]));
    }
  }
}
