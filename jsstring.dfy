/** The two JavaScript string operations the chat component relies on:
    `String.prototype.trim` and `Array.prototype.join` over strings.
    Strings are sequences of Unicode scalar values; JavaScript works on UTF-16
    code units, which makes no difference here because no white-space
    character lies outside the Basic Multilingual Plane. */
module JsString {

  /** The characters `trim` removes: ECMAScript WhiteSpace (TAB, VT, FF,
      ZWNBSP and every Space_Separator) and LineTerminator (LF, CR, LS, PS). */
  predicate IsWhitespace(c: char) {
    var n := c as int;
    || n == 0x09 || n == 0x0A || n == 0x0B || n == 0x0C || n == 0x0D
    || n == 0x20 || n == 0xA0 || n == 0x1680
    || (0x2000 <= n <= 0x200A)
    || n == 0x2028 || n == 0x2029 || n == 0x202F || n == 0x205F
    || n == 0x3000 || n == 0xFEFF
  }

  /** Every character of `s[i..j]` is white space. */
  predicate BlankBetween(s: string, i: nat, j: nat)
    requires i <= j <= |s|
  {
    forall k :: i <= k < j ==> IsWhitespace(s[k])
  }

  predicate AllWhitespace(s: string) {
    BlankBetween(s, 0, |s|)
  }

  /** A string `trim` leaves alone: empty, or neither end is white space. */
  predicate IsTrimmed(s: string) {
    s == [] || (!IsWhitespace(s[0]) && !IsWhitespace(s[|s| - 1]))
  }

  /** Where the text starts when scanning forward from `i`: the first index
      at or after `i` that does not hold white space, or `|s|`. */
  function TextStart(s: string, i: nat): (a: nat)
    requires i <= |s|
    ensures i <= a <= |s|
    ensures BlankBetween(s, i, a)
    ensures a < |s| ==> !IsWhitespace(s[a])
    decreases |s| - i
  {
    if i < |s| && IsWhitespace(s[i]) then TextStart(s, i + 1) else i
  }

  /** Where the text ends when scanning backward from `j`: the least index
      `b <= j` such that `s[b..j]` is all white space. */
  function TextEnd(s: string, j: nat): (b: nat)
    requires j <= |s|
    ensures b <= j
    ensures BlankBetween(s, b, j)
    ensures b > 0 ==> !IsWhitespace(s[b - 1])
  {
    if j > 0 && IsWhitespace(s[j - 1]) then TextEnd(s, j - 1) else j
  }

  /** `String.prototype.trim`: the text between the leading and the trailing
      white space. */
  function Trim(s: string): (r: string)
    ensures |r| <= |s|
    ensures IsTrimmed(r)
    ensures r == [] <==> AllWhitespace(s)
  {
    var a := TextStart(s, 0);
    var b := TextEnd(s, |s|);
    if a < b then s[a..b] else []
  }

  /** `Trim` is pinned down by its specification: whenever `s` is white
      space, then a trimmed middle `s[a..b]`, then white space, `Trim(s)` is
      exactly that middle. */
  lemma TrimCharacterization(s: string, a: nat, b: nat)
    requires a <= b <= |s|
    requires BlankBetween(s, 0, a) && BlankBetween(s, b, |s|)
    requires IsTrimmed(s[a..b])
    ensures Trim(s) == s[a..b]
  {
  }

  /** Trimming a trimmed string changes nothing, and only trimmed strings
      are left unchanged; so `Trim` is idempotent. */
  lemma TrimFixpoint(s: string)
    ensures Trim(s) == s <==> IsTrimmed(s)
    ensures Trim(Trim(s)) == Trim(s)
  {
  }

  /** White space appended at the end never survives `Trim`. */
  lemma TrimDropsTrailingWhitespace(s: string, w: string)
    requires AllWhitespace(w)
    ensures Trim(s + w) == Trim(s)
  {
    var a := TextStart(s, 0);
    var b := TextEnd(s, |s|);
    var u := s + w;
    if a < b {
      assert u[a..b] == s[a..b];
      forall k | b <= k < |u| ensures IsWhitespace(u[k]) {
        if k < |s| {
          assert u[k] == s[k];
        } else {
          assert u[k] == w[k - |s|];
        }
      }
      TrimCharacterization(u, a, b);
    } else {
      forall k | 0 <= k < |u| ensures IsWhitespace(u[k]) {
        if k < |s| {
          assert u[k] == s[k];
        } else {
          assert u[k] == w[k - |s|];
        }
      }
    }
  }

  /** `Array.prototype.join` on an array of strings. */
  function Join(parts: seq<string>, sep: string): string {
    if parts == [] then []
    else if |parts| == 1 then parts[0]
    else parts[0] + sep + Join(parts[1..], sep)
  }

  /** Joining grows on the right the way the loop in the component grows its
      text: one more part adds the separator and that part. */
  lemma {:induction false} JoinSnoc(parts: seq<string>, sep: string, last: string)
    requires parts != []
    ensures Join(parts + [last], sep) == Join(parts, sep) + sep + last
  {
    if |parts| == 1 {
      assert (parts + [last])[1..] == [last];
    } else {
      assert (parts + [last])[1..] == parts[1..] + [last];
      JoinSnoc(parts[1..], sep, last);
    }
  }
}
