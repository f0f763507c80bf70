/** Strings and identifiers: the ObjectId syntax test, the case-insensitive
    search match, prefix tests and decimal rendering. */
module Text {

  /** Record identifiers (Mongo ObjectIds) are carried as their hex strings. */
  type Id = string

  /** Milliseconds since the epoch, as `Date.now()` returns them. */
  type Millis = nat

  datatype Option<T> = None | Some(value: T)

  predicate IsHexDigit(c: char) {
    ('0' <= c <= '9') || ('a' <= c <= 'f') || ('A' <= c <= 'F')
  }

  /** `mongoose.Types.ObjectId.isValid` on a string: 24 hexadecimal digits. */
  predicate IsObjectId(s: string) {
    |s| == 24 && forall i :: 0 <= i < |s| ==> IsHexDigit(s[i])
  }

  /** The ObjectId test does not depend on the case of the letters, and
      every canonical id passes it. */
  lemma ObjectIdIgnoresCase(s: string)
    ensures IsObjectId(s) <==> IsObjectId(Lower(s))
    ensures IsCanonicalId(s) ==> IsObjectId(s)
  {
    assert forall i :: 0 <= i < |s| ==> (IsHexDigit(s[i]) <==> IsHexDigit(Lower(s)[i]));
  }

  predicate IsLowerHexDigit(c: char) {
    ('0' <= c <= '9') || ('a' <= c <= 'f')
  }

  /** The spelling of an ObjectId once it has been cast and printed back
      (`_id.toString()`): 24 lower-case hexadecimal digits. */
  predicate IsCanonicalId(s: string) {
    |s| == 24 && forall i :: 0 <= i < |s| ==> IsLowerHexDigit(s[i])
  }

  /** The cast Mongoose applies to an ObjectId string before a lookup or a
      write: the digits are read case-insensitively, so every spelling of an
      id denotes the one canonical id. */
  function CanonicalId(s: string): (r: Id)
    requires IsObjectId(s)
    ensures IsCanonicalId(r)
    ensures |r| == |s| && forall i :: 0 <= i < |s| ==> r[i] == LowerChar(s[i])
    ensures IsCanonicalId(s) ==> r == s
  {
    Lower(s)
  }

  /** Two spellings denote the same id exactly when they agree digit by digit
      once letters are lower-cased. */
  lemma CanonicalIdSame(s: string, t: string)
    requires IsObjectId(s) && IsObjectId(t)
    ensures CanonicalId(s) == CanonicalId(t) <==> forall i :: 0 <= i < 24 ==> LowerChar(s[i]) == LowerChar(t[i])
  {
    if forall i :: 0 <= i < 24 ==> LowerChar(s[i]) == LowerChar(t[i]) {
      assert forall i :: 0 <= i < 24 ==> CanonicalId(s)[i] == CanonicalId(t)[i];
    }
  }

  predicate StartsWith(s: string, prefix: string) {
    |prefix| <= |s| && s[..|prefix|] == prefix
  }

  /** A path that starts with a prefix still does after anything is appended. */
  lemma StartsWithExtend(s: string, prefix: string, rest: string)
    requires StartsWith(s, prefix)
    ensures StartsWith(s + rest, prefix)
  {
    assert (s + rest)[..|prefix|] == s[..|prefix|];
  }

  /** ASCII lower-casing of one character. */
  function LowerChar(c: char): (d: char)
    ensures 'A' <= c <= 'Z' ==> 'a' <= d <= 'z' && d as int == c as int + 32
    ensures !('A' <= c <= 'Z') ==> d == c
  {
    if 'A' <= c <= 'Z' then (c as int + 32) as char else c
  }

  function Lower(s: string): (r: string)
    ensures |r| == |s|
    ensures forall i :: 0 <= i < |s| ==> r[i] == LowerChar(s[i])
  {
    if s == [] then [] else [LowerChar(s[0])] + Lower(s[1..])
  }

  predicate ContainsAt(s: string, pattern: string, i: nat) {
    i + |pattern| <= |s| && s[i..i + |pattern|] == pattern
  }

  /** `pattern` occurs somewhere in `s`. */
  predicate Contains(s: string, pattern: string) {
    exists i: nat | i <= |s| :: ContainsAt(s, pattern, i)
  }

  /** A case-insensitive substring test: the model's reading of
      `{ $regex: pattern, $options: "i" }` for a pattern without metacharacters. */
  predicate ContainsIgnoreCase(s: string, pattern: string) {
    Contains(Lower(s), Lower(pattern))
  }

  /** The search is at least as wide as an exact substring test: a field
      that contains the pattern as written matches it. */
  lemma ContainsIgnoreCaseWidens(s: string, pattern: string)
    requires Contains(s, pattern)
    ensures ContainsIgnoreCase(s, pattern)
  {
    var i: nat :| i <= |s| && ContainsAt(s, pattern, i);
    var ls, lp := Lower(s), Lower(pattern);
    forall j | 0 <= j < |lp| ensures ls[i + j] == lp[j] {
      assert s[i + j] == s[i..i + |pattern|][j];
    }
    assert ls[i..i + |lp|] == lp;
    assert ContainsAt(ls, lp, i);
  }

  function DigitChar(d: nat): char
    requires d < 10
  {
    "0123456789"[d]
  }

  /** Decimal rendering of a natural number (JavaScript's `${n}` for an integer). */
  function NatToString(n: nat): (r: string)
    ensures |r| >= 1
    ensures forall i :: 0 <= i < |r| ==> '0' <= r[i] <= '9'
  {
    if n < 10 then [DigitChar(n)] else NatToString(n / 10) + [DigitChar(n % 10)]
  }
}
