/** The parts of Rust's string handling that the modelled code leans on. */
module Text {
  import opened Wrappers

  /** `char::is_whitespace`: the Unicode `White_Space` property. */
  predicate IsWhitespace(c: char) {
    var n := c as int;
    || 0x9 <= n <= 0xD || n == 0x20 || n == 0x85 || n == 0xA0 || n == 0x1680
    || 0x2000 <= n <= 0x200A || n == 0x2028 || n == 0x2029 || n == 0x202F || n == 0x205F || n == 0x3000
  }

  lemma WhitespaceIff(c: char)
    ensures IsWhitespace(c) <==>
            c in {'\t', '\n', '\U{000B}', '\U{000C}', '\r', ' ', '\U{0085}', '\U{00A0}', '\U{1680}',
                  '\U{2000}', '\U{2001}', '\U{2002}', '\U{2003}', '\U{2004}', '\U{2005}', '\U{2006}', '\U{2007}',
                  '\U{2008}', '\U{2009}', '\U{200A}', '\U{2028}', '\U{2029}', '\U{202F}', '\U{205F}', '\U{3000}'}
  {
  }

  function TrimStart(s: string): (r: string)
    ensures |r| <= |s| && r == s[|s| - |r|..]
    ensures forall i :: 0 <= i < |s| - |r| ==> IsWhitespace(s[i])
    ensures |r| == 0 || !IsWhitespace(r[0])
  {
    if |s| > 0 && IsWhitespace(s[0]) then TrimStart(s[1..]) else s
  }

  function TrimEnd(s: string): (r: string)
    ensures |r| <= |s| && r == s[..|r|]
    ensures forall i :: |r| <= i < |s| ==> IsWhitespace(s[i])
    ensures |r| == 0 || !IsWhitespace(r[|r| - 1])
  {
    if |s| > 0 && IsWhitespace(s[|s| - 1]) then TrimEnd(s[..|s| - 1]) else s
  }

  /** `str::trim`. */
  function Trim(s: string): string {
    TrimEnd(TrimStart(s))
  }

  predicate Blank(s: string) {
    |Trim(s)| == 0
  }

  lemma BlankIff(s: string)
    ensures Blank(s) <==> forall i :: 0 <= i < |s| ==> IsWhitespace(s[i])
  {
    var a := TrimStart(s);
    var b := TrimEnd(a);
    assert forall i :: 0 <= i < |a| ==> a[i] == s[|s| - |a| + i];
    if |b| > 0 {
      assert a[0] == b[0];
    }
  }

  // ---- Numbers ----

  predicate IsDigit(c: char) {
    '0' <= c <= '9'
  }

  function DigitValue(c: char): nat
    requires IsDigit(c)
  {
    c as int - '0' as int
  }

  predicate AllDigits(s: string) {
    forall i :: 0 <= i < |s| ==> IsDigit(s[i])
  }

  function DecimalValue(s: string): nat
    requires AllDigits(s)
  {
    if |s| == 0 then 0 else 10 * DecimalValue(s[..|s| - 1]) + DigitValue(s[|s| - 1])
  }

  /** Decimal printing of a number. */
  function Show(n: nat): (s: string)
    ensures |s| > 0
  {
    (if n < 10 then "" else Show(n / 10)) + [('0' as int + n % 10) as char]
  }

  lemma {:induction false} ShowIsDecimal(n: nat)
    ensures AllDigits(Show(n)) && DecimalValue(Show(n)) == n
  {
    var s := Show(n);
    if n >= 10 {
      ShowIsDecimal(n / 10);
      assert s[..|s| - 1] == Show(n / 10);
    }
    assert IsDigit(s[|s| - 1]) && DigitValue(s[|s| - 1]) == n % 10;
  }

  /** Rust's parse of an unsigned integer no larger than `max`: digits, with an optional `+`. */
  function ParseUnsigned(s: string, max: nat): (r: Option<nat>)
    ensures r.Some? ==> r.value <= max
  {
    var digits := if |s| > 0 && s[0] == '+' then s[1..] else s;
    if |digits| > 0 && AllDigits(digits) && DecimalValue(digits) <= max then Some(DecimalValue(digits)) else None
  }

  lemma ParseInvertsShow(n: nat, max: nat)
    requires n <= max
    ensures ParseUnsigned(Show(n), max) == Some(n)
  {
    ShowIsDecimal(n);
    assert IsDigit(Show(n)[0]);
  }

  /** `rsplit_once`, second half: what follows the last `c`. */
  function AfterLast(s: string, c: char): Option<string> {
    if |s| == 0 then None
    else if s[|s| - 1] == c then Some("")
    else
      var r := AfterLast(s[..|s| - 1], c);
      if r.None? then None else Some(r.value + [s[|s| - 1]])
  }

  lemma {:induction false} AfterLastIs(head: string, c: char, tail: string)
    requires c !in tail
    ensures AfterLast(head + [c] + tail, c) == Some(tail)
  {
    var s := head + [c] + tail;
    if |tail| == 0 {
      assert s[|s| - 1] == c;
    } else {
      var shorter := tail[..|tail| - 1];
      AfterLastIs(head, c, shorter);
      assert s[..|s| - 1] == head + [c] + shorter;
      assert tail == shorter + [tail[|tail| - 1]];
    }
  }

  /** Position of the first `c`; `|s|` if there is none. */
  function FirstOf(s: string, c: char): (i: nat)
    ensures i <= |s|
  {
    if |s| == 0 || s[0] == c then 0 else FirstOf(s[1..], c) + 1
  }

  lemma {:induction false} FirstOfIsFirst(s: string, c: char)
    ensures FirstOf(s, c) < |s| ==> s[FirstOf(s, c)] == c
    ensures c !in s[..FirstOf(s, c)]
  {
    if |s| > 0 && s[0] != c {
      FirstOfIsFirst(s[1..], c);
      assert s[..FirstOf(s, c)] == [s[0]] + s[1..][..FirstOf(s[1..], c)];
    }
  }

  lemma {:induction false} FirstOfIs(head: string, c: char, tail: string)
    requires c !in head
    ensures FirstOf(head + [c] + tail, c) == |head| && FirstOf(head, c) == |head|
  {
    var s := head + [c] + tail;
    if |head| == 0 {
      assert s[0] == c;
    } else {
      FirstOfIs(head[1..], c, tail);
      assert s[1..] == head[1..] + [c] + tail && s[0] == head[0];
    }
  }

  // ---- Searching ----

  predicate StartsWith(s: string, p: string) {
    |p| <= |s| && s[..|p|] == p
  }

  /** `str::find`: the first place where `p` occurs. */
  function Find(s: string, p: string): (r: Option<nat>)
    ensures r.Some? ==> r.value + |p| <= |s|
  {
    if StartsWith(s, p) then Some(0)
    else if |s| == 0 then None
    else
      var r := Find(s[1..], p);
      if r.None? then None else Some(r.value + 1)
  }

  lemma {:induction false} FindIsFirst(s: string, p: string)
    ensures Find(s, p).None? ==> forall k :: 0 <= k <= |s| ==> !StartsWith(s[k..], p)
    ensures Find(s, p).Some? ==>
              StartsWith(s[Find(s, p).value..], p) && forall k :: 0 <= k < Find(s, p).value ==> !StartsWith(s[k..], p)
  {
    assert s[0..] == s;
    if !StartsWith(s, p) && |s| > 0 {
      FindIsFirst(s[1..], p);
      assert forall k :: 1 <= k <= |s| ==> s[k..] == s[1..][k - 1..];
    }
  }

  /** `trim_matches('\n')`. */
  function TrimNewlines(s: string): (r: string)
    ensures |r| == 0 || (r[0] != '\n' && r[|r| - 1] != '\n')
    decreases |s|
  {
    if |s| > 0 && s[0] == '\n' then TrimNewlines(s[1..])
    else if |s| > 0 && s[|s| - 1] == '\n' then TrimNewlines(s[..|s| - 1])
    else s
  }
}
