/** Small facts about strings as sequences of characters: prefixes,
    suffixes and the splitting of a text at its first line break. */
module Text {
  import opened Wrappers

  predicate StartsWith(s: string, p: string)
  {
    |p| <= |s| && s[..|p|] == p
  }

  predicate EndsWith(s: string, p: string)
  {
    |p| <= |s| && s[|s| - |p|..] == p
  }

  /** A string that fits on one line of a text file. */
  predicate OneLine(s: string)
  {
    '\n' !in s
  }

  /** Splits `s` at its first line break into the line before it and the
      text after it; None when `s` holds no line break. */
  function SplitLine(s: string): (r: Option<(string, string)>)
    ensures r.None? <==> OneLine(s)
    ensures r.Some? ==> OneLine(r.value.0) && s == r.value.0 + "\n" + r.value.1
  {
    if s == [] then None
    else if s[0] == '\n' then Some(([], s[1..]))
    else match SplitLine(s[1..])
      case None => None
      case Some((line, rest)) => Some(([s[0]] + line, rest))
  }

  lemma OneLineAppend(a: string, b: string)
    requires OneLine(a) && OneLine(b)
    ensures OneLine(a + b)
  {
  }

  /** A text that differs from `p` at some position `p` covers does not
      start with `p`. */
  lemma DiffersAt(s: string, p: string, k: nat)
    requires k < |s| && k < |p| && s[k] != p[k]
    ensures !StartsWith(s, p)
  {
  }

  /** The three lemmas below restate the associativity of `+` on strings,
      which Dafny knows; proofs call them to tell the solver which
      regrouping of a long concatenation to use. */
  lemma AppendAssoc(a: string, b: string, c: string)
    ensures a + b + c == a + (b + c)
  {
  }

  lemma AppendAssoc3(a: string, b: string, c: string, d: string)
    ensures a + b + c + d == a + (b + c + d)
  {
  }

  lemma AppendAssoc4(a: string, b: string, c: string, d: string, e: string)
    ensures a + b + c + d + e == a + (b + c + d + e)
  {
  }

  lemma PrefixOfConcat(p: string, r: string)
    ensures StartsWith(p + r, p) && (p + r)[|p|..] == r
  {
    assert (p + r)[..|p|] == p;
  }

  lemma SuffixOfConcat(r: string, p: string)
    ensures EndsWith(r + p, p) && (r + p)[..|r|] == r
  {
    assert (r + p)[|r|..] == p;
  }

  /** A one-line string followed by a line break is split back into itself
      and whatever follows. */
  lemma {:induction false} SplitLineOf(line: string, rest: string)
    requires OneLine(line)
    ensures SplitLine(line + "\n" + rest) == Some((line, rest))
  {
    var s := line + "\n" + rest;
    if line == [] {
      assert s == "\n" + rest;
      assert s[1..] == rest;
    } else {
      assert s[0] == line[0] && line[0] != '\n';
      assert s[1..] == line[1..] + "\n" + rest;
      SplitLineOf(line[1..], rest);
      assert [line[0]] + line[1..] == line;
    }
  }
}
