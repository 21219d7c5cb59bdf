/** The few Python `str` operations the agents rely on: `isspace`, `strip()`
    with no argument, `" ".join` and the decimal rendering of `f"{n}"`. */
module PyStr {

  /** Python's `str.isspace` for one character (the Unicode White_Space
      characters plus the separators U+001C..U+001F). */
  predicate IsSpace(c: char) {
    c == ' ' || ('\t' <= c <= '\r') || ('\U{1C}' <= c <= '\U{1F}')
    || c == '\U{85}' || c == '\U{A0}' || c == '\U{1680}'
    || ('\U{2000}' <= c <= '\U{200A}') || c == '\U{2028}' || c == '\U{2029}'
    || c == '\U{202F}' || c == '\U{205F}' || c == '\U{3000}'
  }

  predicate AllSpace(s: string) {
    forall i :: 0 <= i < |s| ==> IsSpace(s[i])
  }

  /** `s.lstrip()`: the suffix of `s` left after dropping leading whitespace. */
  function StripLeft(s: string): (r: string)
    ensures |r| <= |s| && r == s[|s| - |r|..]
    ensures AllSpace(s[..|s| - |r|])
    ensures r != [] ==> !IsSpace(r[0])
    decreases |s|
  {
    if s != [] && IsSpace(s[0]) then StripLeft(s[1..]) else s
  }

  /** `s.rstrip()`: the prefix of `s` left after dropping trailing whitespace. */
  function StripRight(s: string): (r: string)
    ensures |r| <= |s| && r == s[..|r|]
    ensures AllSpace(s[|r|..])
    ensures r != [] ==> !IsSpace(r[|r| - 1])
    decreases |s|
  {
    if s != [] && IsSpace(s[|s| - 1]) then StripRight(s[..|s| - 1]) else s
  }

  /** `s.strip()`. */
  function Strip(s: string): (r: string)
    ensures r != [] ==> !IsSpace(r[0]) && !IsSpace(r[|r| - 1])
  {
    StripRight(StripLeft(s))
  }

  /** Stripping leaves nothing exactly when the string is all whitespace. */
  lemma StripEmptyIff(s: string)
    ensures Strip(s) == "" <==> AllSpace(s)
  {
    var l := StripLeft(s);
    if l == [] {
      assert s[..|s|] == s;
    } else {
      // the first character kept on the left is not whitespace, and it
      // survives the right strip
      assert s[|s| - |l|] == l[0];
      assert l[0..] == l;
    }
  }

  /** Stripping is idempotent. */
  lemma StripIdempotent(s: string)
    ensures Strip(Strip(s)) == Strip(s)
  {
    var r := Strip(s);
    if r != [] {
      assert StripLeft(r) == r;
      assert StripRight(r) == r;
    }
  }

  /** `" ".join(parts)`. */
  function Join(parts: seq<string>): string
    decreases |parts|
  {
    if |parts| == 0 then ""
    else if |parts| == 1 then parts[0]
    else parts[0] + " " + Join(parts[1..])
  }

  /** The joined text is all whitespace exactly when every piece is, since the
      separator itself is whitespace. */
  lemma {:induction false} JoinAllSpace(parts: seq<string>)
    ensures AllSpace(Join(parts)) <==> forall i :: 0 <= i < |parts| ==> AllSpace(parts[i])
    decreases |parts|
  {
    if |parts| > 1 {
      JoinAllSpace(parts[1..]);
      var head, tail := parts[0], Join(parts[1..]);
      var j := head + " " + tail;
      assert Join(parts) == j;
      assert j[..|head|] == head && j[|head| + 1..] == tail && j[|head|] == ' ';
      if AllSpace(j) {
        assert AllSpace(head) by {
          forall i | 0 <= i < |head| ensures IsSpace(head[i]) { assert head[i] == j[i]; }
        }
        assert AllSpace(tail) by {
          forall i | 0 <= i < |tail| ensures IsSpace(tail[i]) { assert tail[i] == j[|head| + 1 + i]; }
        }
        forall i | 0 <= i < |parts| ensures AllSpace(parts[i]) {
          if i > 0 { assert parts[i] == parts[1..][i - 1]; }
        }
      } else {
        var k :| 0 <= k < |j| && !IsSpace(j[k]);
        if k < |head| {
          assert head[k] == j[k];
        } else {
          assert k > |head| && tail[k - |head| - 1] == j[k];
          var m :| 0 <= m < |parts[1..]| && !AllSpace(parts[1..][m]);
          assert parts[m + 1] == parts[1..][m];
        }
      }
    }
  }

  function DigitChar(d: int): (c: char)
    requires 0 <= d < 10
    ensures '0' <= c <= '9'
  {
    ('0' as int + d) as char
  }

  /** The number a string of decimal digits denotes, most significant first. */
  function DigitsValue(s: string): nat
    requires forall i :: 0 <= i < |s| ==> '0' <= s[i] <= '9'
    decreases |s|
  {
    if s == [] then 0
    else 10 * DigitsValue(s[..|s| - 1]) + (s[|s| - 1] as int - '0' as int)
  }

  /** `f"{n}"` for a natural number: its decimal digits, no leading zero,
      denoting `n`. */
  function NatToString(n: nat): (r: string)
    ensures |r| >= 1 && (|r| > 1 ==> r[0] != '0')
    ensures forall i :: 0 <= i < |r| ==> '0' <= r[i] <= '9'
    ensures DigitsValue(r) == n
    decreases n
  {
    if n < 10 then [DigitChar(n)]
    else
      var front := NatToString(n / 10);
      var r := front + [DigitChar(n % 10)];
      assert r[..|r| - 1] == front;
      r
  }
}
