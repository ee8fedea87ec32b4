/** String predicates shared by both stages: prefix and suffix tests with the
    meaning of Rust's `str::starts_with` / `str::ends_with` for string
    patterns, separator membership, and the two ways tokens are glued. */
module Text {

  /** `p` is a prefix of `s`; the empty string is a prefix of every string. */
  predicate StartsWith(s: string, p: string)
  {
    |p| <= |s| && s[..|p|] == p
  }

  /** `p` is a suffix of `s`; the empty string is a suffix of every string. */
  predicate EndsWith(s: string, p: string)
  {
    |p| <= |s| && s[|s| - |p|..] == p
  }

  /** `s` ends with at least one of the strings in `ps`. */
  predicate EndsWithAny(ps: seq<string>, s: string)
  {
    exists i :: 0 <= i < |ps| && EndsWith(s, ps[i])
  }

  /** No character of `s` is a separator. */
  predicate NoSeparator(seps: seq<char>, s: string)
  {
    forall i :: 0 <= i < |s| ==> s[i] !in seps
  }

  /** Every character of `s` is a separator. */
  predicate OnlySeparators(seps: seq<char>, s: string)
  {
    forall i :: 0 <= i < |s| ==> s[i] in seps
  }

  /** `s` with every separator character removed, order kept. */
  function Strip(seps: seq<char>, s: string): (r: string)
    ensures NoSeparator(seps, r)
    ensures |r| <= |s|
  {
    if s == [] then []
    else if s[0] in seps then Strip(seps, s[1..])
    else [s[0]] + Strip(seps, s[1..])
  }

  /** The strings of `ss` written one after another. */
  function Concat(ss: seq<string>): string
  {
    if ss == [] then [] else ss[0] + Concat(ss[1..])
  }

  /** The strings of `ws` with one space between each two. */
  function Unwords(ws: seq<string>): string
  {
    if |ws| <= 1 then (if ws == [] then [] else ws[0])
    else ws[0] + " " + Unwords(ws[1..])
  }

  /** The strings of `ss`, each followed by one space. */
  function Spaced(ss: seq<string>): string
  {
    if ss == [] then [] else ss[0] + " " + Spaced(ss[1..])
  }

  /** Joining two non-empty lists puts one space between their joins. */
  lemma {:induction false} UnwordsAppend(a: seq<string>, b: seq<string>)
    requires a != [] && b != []
    ensures Unwords(a + b) == Unwords(a) + " " + Unwords(b)
    decreases |a|
  {
    if |a| == 1 {
      assert (a + b)[0] == a[0] && (a + b)[1..] == b;
    } else {
      assert (a + b)[0] == a[0] && (a + b)[1..] == a[1..] + b;
      UnwordsAppend(a[1..], b);
    }
  }

  /** A non-empty list with a space after each string is its join followed by
      one space. */
  lemma {:induction false} SpacedUnwords(ws: seq<string>)
    requires ws != []
    ensures Spaced(ws) == Unwords(ws) + " "
  {
    if |ws| > 1 {
      SpacedUnwords(ws[1..]);
    }
  }
}
