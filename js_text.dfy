/**
 * The JavaScript string behaviour the exporter relies on: truthiness of an
 * optional metadata field, template-literal interpolation, `indexOf`,
 * `substring`, `replace` with a string pattern, `Array.prototype.join`, and
 * the decimal rendering of a count. A JavaScript string is a sequence of
 * UTF-16 code units; here it is a `seq<char>`, a sequence of Unicode scalar
 * values, so the two agree only on text inside the Basic Multilingual Plane.
 */
module JsText {

  datatype Option<+T> = None | Some(value: T)

  const CRLF: string := "\r\n"

  /** `if (v)` on an optional string field: present and not the empty string. */
  predicate Truthy(v: Option<string>) {
    v.Some? && v.value != ""
  }

  /** `${v}` in a template literal: a missing field prints as "undefined". */
  function Render(v: Option<string>): string {
    match v
    case Some(s) => s
    case None => "undefined"
  }

  predicate StartsWith(s: string, prefix: string) {
    prefix <= s
  }

  predicate EndsWith(s: string, suffix: string) {
    |suffix| <= |s| && s[|s| - |suffix|..] == suffix
  }

  predicate OccursAt(s: string, pat: string, i: int) {
    0 <= i && i + |pat| <= |s| && s[i..i + |pat|] == pat
  }

  predicate Contains(s: string, pat: string) {
    exists i | 0 <= i <= |s| :: OccursAt(s, pat, i)
  }

  /** `i` is the position of the leftmost occurrence of `pat` in `s`. */
  predicate FirstOccurrence(s: string, pat: string, i: int) {
    OccursAt(s, pat, i) && forall j | 0 <= j < i :: !OccursAt(s, pat, j)
  }

  function IndexFrom(s: string, pat: string, from: nat): (r: int)
    ensures r == -1 || (from <= r && OccursAt(s, pat, r))
    ensures forall j | from <= j && (r == -1 || j < r) :: !OccursAt(s, pat, j)
    decreases |s| - from
  {
    if from + |pat| > |s| then -1
    else if s[from..from + |pat|] == pat then from
    else IndexFrom(s, pat, from + 1)
  }

  /** `s.indexOf(pat)`: the leftmost occurrence, or -1 when there is none. */
  function IndexOf(s: string, pat: string): (r: int)
    ensures r == -1 <==> !Contains(s, pat)
    ensures r != -1 ==> FirstOccurrence(s, pat, r)
  {
    IndexFrom(s, pat, 0)
  }

  lemma FirstOccurrenceIsIndexOf(s: string, pat: string, i: int)
    requires FirstOccurrence(s, pat, i)
    ensures IndexOf(s, pat) == i
  {
    var r := IndexOf(s, pat);
    assert r != -1;
    if r < i {
      assert OccursAt(s, pat, r);
    } else if i < r {
      assert OccursAt(s, pat, i);
    }
  }

  function Clamp(x: int, len: nat): (r: nat)
    ensures r <= len
  {
    if x < 0 then 0 else if x > len then len else x
  }

  /**
   * `s.substring(start, end)`: both bounds are clamped into [0, |s|] and
   * swapped when the first exceeds the second.
   */
  function Substring(s: string, start: int, end: int): (r: string)
    ensures 0 <= start <= end <= |s| ==> r == s[start..end]
    ensures start <= 0 && end <= 0 ==> r == ""
    ensures start <= 0 && |s| <= end ==> r == s
  {
    var a, b := Clamp(start, |s|), Clamp(end, |s|);
    if a <= b then s[a..b] else s[b..a]
  }

  /**
   * `s.substring(0, s.indexOf(marker))`: the text before the leftmost
   * occurrence of `marker`; when the marker is absent `indexOf` gives -1,
   * which `substring` clamps to 0, so the result is empty.
   */
  function PrefixBefore(s: string, marker: string): (r: string)
    ensures !Contains(s, marker) ==> r == ""
    ensures Contains(s, marker) ==> r + marker <= s && FirstOccurrence(s, marker, |r|)
  {
    Substring(s, 0, IndexOf(s, marker))
  }

  /**
   * `s.replace(pat, rep)` with a string pattern and a replacement free of `$`
   * patterns (`$&`, `$$`, ...): only the leftmost occurrence is replaced.
   */
  function ReplaceFirst(s: string, pat: string, rep: string): (r: string)
    ensures !Contains(s, pat) ==> r == s
    ensures forall i | FirstOccurrence(s, pat, i) :: r == s[..i] + rep + s[i + |pat|..]
  {
    var i := IndexOf(s, pat);
    if i == -1 then s
    else
      assert forall k | FirstOccurrence(s, pat, k) :: k == i by {
        forall k | FirstOccurrence(s, pat, k) ensures k == i {
          FirstOccurrenceIsIndexOf(s, pat, k);
        }
      }
      s[..i] + rep + s[i + |pat|..]
  }

  /** `parts.join(sep)`. */
  function Join(parts: seq<string>, sep: string): (r: string)
    ensures |parts| == 0 ==> r == ""
    ensures |parts| > 0 ==> StartsWith(r, parts[0]) && EndsWith(r, parts[|parts| - 1])
  {
    if |parts| == 0 then ""
    else if |parts| == 1 then parts[0]
    else parts[0] + sep + Join(parts[1..], sep)
  }

  lemma {:induction false} JoinConcat(a: seq<string>, b: seq<string>, sep: string)
    requires |a| > 0 && |b| > 0
    ensures Join(a + b, sep) == Join(a, sep) + sep + Join(b, sep)
  {
    if |a| == 1 {
      assert (a + b)[1..] == b;
    } else {
      assert (a + b)[1..] == a[1..] + b;
      JoinConcat(a[1..], b, sep);
    }
  }

  /** Joining a non-empty list peels off its first element. */
  lemma JoinCons(x: string, rest: seq<string>, sep: string)
    requires |rest| > 0
    ensures Join([x] + rest, sep) == x + sep + Join(rest, sep)
  {
    assert ([x] + rest)[1..] == rest;
  }

  /** A join that starts with two given elements starts with both and a separator after each. */
  lemma JoinLeadingPair(x: string, y: string, tail: seq<string>, sep: string)
    requires |tail| > 0
    ensures StartsWith(Join([x, y] + tail, sep), x + sep + y + sep)
  {
    JoinPair(x, y, tail, sep);
    LeadingPair(x, y, Join(tail, sep), sep, Join([x, y] + tail, sep));
  }

  lemma LeadingPair(x: string, y: string, j: string, sep: string, whole: string)
    requires whole == x + sep + (y + sep + j)
    ensures StartsWith(whole, x + sep + y + sep)
  {
    var lead := x + sep + y + sep;
    assert whole == lead + j;
    assert whole[..|lead|] == lead;
  }

  /** Joining peels off two leading elements. */
  lemma JoinPair(x: string, y: string, tail: seq<string>, sep: string)
    requires |tail| > 0
    ensures Join([x, y] + tail, sep) == x + sep + (y + sep + Join(tail, sep))
  {
    assert [x, y] + tail == [x] + ([y] + tail);
    JoinCons(x, [y] + tail, sep);
    JoinCons(y, tail, sep);
  }

  function DigitChar(d: nat): (c: char)
    requires d < 10
    ensures '0' <= c <= '9'
  {
    ('0' as int + d) as char
  }

  predicate IsDecimal(s: string) {
    |s| > 0 && forall i | 0 <= i < |s| :: '0' <= s[i] <= '9'
  }

  /** `${n}` for a non-negative integer: its decimal digits, most significant first. */
  function NatToString(n: nat): (r: string)
    ensures IsDecimal(r)
    ensures r[0] == '0' <==> n == 0
    decreases n
  {
    if n < 10 then [DigitChar(n)] else NatToString(n / 10) + [DigitChar(n % 10)]
  }

  /** Reads a string of decimal digits back as a number. */
  function ParseDecimal(s: string): nat
    requires forall i | 0 <= i < |s| :: '0' <= s[i] <= '9'
  {
    if s == [] then 0
    else 10 * ParseDecimal(s[..|s| - 1]) + (s[|s| - 1] as int - '0' as int)
  }

  /** The decimal rendering loses nothing: parsing it gives the number back. */
  lemma {:induction false} ParseNatToString(n: nat)
    ensures ParseDecimal(NatToString(n)) == n
    decreases n
  {
    if n >= 10 {
      var r := NatToString(n);
      assert r[..|r| - 1] == NatToString(n / 10);
      ParseNatToString(n / 10);
    }
  }
}
