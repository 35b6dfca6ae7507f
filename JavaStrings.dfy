/**
 * The two pieces of java.lang.String / Spring StringUtils behaviour the
 * authentication code depends on: `StringUtils.hasText` and
 * `String.split` with a one-character, non-regex delimiter and limit 0.
 */
module JavaStrings {

  /** Character.isWhitespace: the ASCII controls it accepts and the Unicode
      space, line and paragraph separators other than the non-breaking ones. */
  predicate IsWhitespace(c: char) {
    c == ' ' || c == '\t' || c == '\n' || c == '\U{000B}' || c == '\U{000C}' || c == '\r'
    || ('\U{001C}' <= c <= '\U{001F}')
    || c == '\U{1680}' || ('\U{2000}' <= c <= '\U{2006}') || ('\U{2008}' <= c <= '\U{200A}')
    || c == '\U{2028}' || c == '\U{2029}' || c == '\U{205F}' || c == '\U{3000}'
  }

  /** StringUtils.hasText on a non-null string: some character is not whitespace. */
  predicate HasText(s: string) {
    exists i :: 0 <= i < |s| && !IsWhitespace(s[i])
  }

  /** Every field between occurrences of `c`, empty ones included:
      there is always one more field than there are delimiters. */
  function Fields(s: string, c: char): (r: seq<string>)
    ensures |r| >= 1
    ensures forall i :: 0 <= i < |r| ==> c !in r[i]
    decreases |s|
  {
    if s == [] then [""]
    else
      var rest := Fields(s[1..], c);
      if s[0] == c then [""] + rest
      else [[s[0]] + rest[0]] + rest[1..]
  }

  /** The fields put back together with `c` between them. */
  function Join(parts: seq<string>, c: char): string
    requires |parts| >= 1
  {
    if |parts| == 1 then parts[0] else parts[0] + [c] + Join(parts[1..], c)
  }

  /** Splitting loses nothing: the fields joined back give the string. */
  lemma {:induction false} JoinFields(s: string, c: char)
    ensures Join(Fields(s, c), c) == s
    decreases |s|
  {
    if s != [] {
      JoinFields(s[1..], c);
      var rest := Fields(s[1..], c);
      if s[0] != c {
        if |rest| == 1 {
          assert Fields(s, c) == [[s[0]] + rest[0]];
        } else {
          var r := Fields(s, c);
          assert r[1..] == rest[1..];
          assert Join(r, c) == [s[0]] + rest[0] + [c] + Join(rest[1..], c);
        }
      } else {
        assert Fields(s, c)[1..] == rest;
      }
    }
  }

  /** Splitting is exact: fields free of `c`, joined with `c`, split back into themselves. */
  lemma {:induction false} FieldsJoin(parts: seq<string>, c: char)
    requires |parts| >= 1
    requires forall i :: 0 <= i < |parts| ==> c !in parts[i]
    ensures Fields(Join(parts, c), c) == parts
    decreases |parts|, |parts[0]|
  {
    var p := parts[0];
    if p == [] {
      if |parts| > 1 {
        FieldsJoin(parts[1..], c);
        assert Join(parts, c) == [c] + Join(parts[1..], c);
        assert ([c] + Join(parts[1..], c))[1..] == Join(parts[1..], c);
      }
    } else {
      var tail := [p[1..]] + parts[1..];
      assert tail[1..] == parts[1..];
      FieldsJoin(tail, c);
      assert Join(parts, c) == [p[0]] + Join(tail, c);
      assert ([p[0]] + Join(tail, c))[1..] == Join(tail, c);
      assert p[0] != c by { assert p[0] == parts[0][0]; }
      var j := [p[0]] + Join(tail, c);
      assert j[1..] == Join(tail, c);
      assert Fields(j, c) == [[p[0]] + p[1..]] + parts[1..];
      assert [p[0]] + p[1..] == p;
      assert [p] + parts[1..] == parts;
    }
  }

  /** Java's limit-0 rule: trailing empty strings are removed from the result. */
  function StripTrailingEmpty(parts: seq<string>): (r: seq<string>)
    ensures r <= parts
    ensures r == [] || r[|r| - 1] != ""
    ensures forall i :: |r| <= i < |parts| ==> parts[i] == ""
  {
    if parts == [] then []
    else if parts[|parts| - 1] == "" then StripTrailingEmpty(parts[..|parts| - 1])
    else parts
  }

  /** `s.split(String.valueOf(c))`: a string without the delimiter comes back
      whole (even the empty one); otherwise its fields, trailing empties dropped. */
  function Split(s: string, c: char): (r: seq<string>)
    ensures forall i :: 0 <= i < |r| ==> c !in r[i]
  {
    if c !in s then [s] else StripTrailingEmpty(Fields(s, c))
  }

  /** A result of Split has more than k elements exactly when some field at
      index k or later is non-empty. */
  lemma SplitLongerThan(s: string, c: char, k: nat)
    requires c in s
    ensures |Split(s, c)| > k <==> exists j :: k <= j < |Fields(s, c)| && Fields(s, c)[j] != ""
  {
    var f := Fields(s, c);
    var r := Split(s, c);
    if |r| > k {
      assert r[|r| - 1] == f[|r| - 1] != "";
    }
  }

  /** Two delimiter-free pieces around one delimiter split back into those two
      pieces, provided the second is not empty. */
  lemma SplitTwoFields(a: string, b: string, c: char)
    requires c !in a && c !in b && b != ""
    ensures Split(a + [c] + b, c) == [a, b]
  {
    FieldsJoin([a, b], c);
    assert Join([a, b], c) == a + [c] + b;
    assert (a + [c] + b)[|a|] == c;
  }

  /** A string without the delimiter splits into itself alone. */
  lemma SplitWithoutDelimiter(s: string, c: char)
    requires c !in s
    ensures Split(s, c) == [s]
  {
  }
}
