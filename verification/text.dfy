/** The pieces of Rust's `str` API the source leans on to read its inputs:
    `split` on a character, `trim`, and `parse` into a fixed-width integer. */
module Text {
  import opened Wrappers

  // ---------------------------------------------------------------------------
  // split / join

  /** `s.split(sep)`: the pieces between separators; never empty, and an empty
      string yields one empty piece. */
  function Split(s: string, sep: char): (parts: seq<string>)
    ensures |parts| >= 1
    ensures forall i :: 0 <= i < |parts| ==> sep !in parts[i]
    decreases |s|
  {
    if |s| == 0 then [""]
    else
      var rest := Split(s[1..], sep);
      if s[0] == sep then [""] + rest
      else [[s[0]] + rest[0]] + rest[1..]
  }

  /** The inverse of `Split`: the pieces glued back with the separator. */
  function Join(parts: seq<string>, sep: char): string
    requires |parts| >= 1
  {
    if |parts| == 1 then parts[0] else parts[0] + [sep] + Join(parts[1..], sep)
  }

  /** Splitting loses nothing: joining the pieces gives the input back. */
  lemma {:induction false} JoinSplit(s: string, sep: char)
    ensures Join(Split(s, sep), sep) == s
    decreases |s|
  {
    if |s| > 0 {
      JoinSplit(s[1..], sep);
      var rest := Split(s[1..], sep);
      if s[0] != sep {
        if |rest| == 1 {
          assert Split(s, sep) == [[s[0]] + rest[0]];
        } else {
          var parts := Split(s, sep);
          assert parts[1..] == rest[1..];
          assert Join(parts, sep) == [s[0]] + rest[0] + [sep] + Join(rest[1..], sep);
        }
      } else {
        assert Split(s, sep)[1..] == rest;
      }
    }
  }

  /** Splitting a join of separator-free pieces gives the pieces back. */
  lemma {:induction false} SplitJoin(parts: seq<string>, sep: char)
    requires |parts| >= 1
    requires forall i :: 0 <= i < |parts| ==> sep !in parts[i]
    ensures Split(Join(parts, sep), sep) == parts
    decreases |parts|, |parts[0]|
  {
    if |parts[0]| > 0 {
      var tail := [parts[0][1..]] + parts[1..];
      SplitJoin(tail, sep);
      assert Join(tail, sep)[..] == Join(parts, sep)[1..] by {
        if |parts| == 1 {
        } else {
          assert Join(parts, sep) == parts[0] + [sep] + Join(parts[1..], sep);
          assert tail[1..] == parts[1..];
          assert Join(tail, sep) == parts[0][1..] + [sep] + Join(parts[1..], sep);
        }
      }
      assert [parts[0][0]] + parts[0][1..] == parts[0];
    } else if |parts| > 1 {
      SplitJoin(parts[1..], sep);
      assert Join(parts, sep) == [sep] + Join(parts[1..], sep);
      assert Join(parts, sep)[1..] == Join(parts[1..], sep);
    }
  }

  // ---------------------------------------------------------------------------
  // trim

  /** `char::is_whitespace`: the Unicode White_Space property. */
  predicate IsSpace(c: char) {
    || ('\U{0009}' <= c <= '\U{000D}') || c == ' ' || c == '\U{0085}' || c == '\U{00A0}'
    || c == '\U{1680}' || ('\U{2000}' <= c <= '\U{200A}') || c == '\U{2028}' || c == '\U{2029}'
    || c == '\U{202F}' || c == '\U{205F}' || c == '\U{3000}'
  }

  /** The number of leading white-space characters of `s`. */
  function LeadingSpaces(s: string): (n: nat)
    ensures n <= |s|
    ensures forall k :: 0 <= k < n ==> IsSpace(s[k])
    ensures n == |s| || !IsSpace(s[n])
  {
    if |s| > 0 && IsSpace(s[0]) then 1 + LeadingSpaces(s[1..]) else 0
  }

  /** The number of trailing white-space characters of `s`. */
  function TrailingSpaces(s: string): (n: nat)
    ensures n <= |s|
    ensures forall k :: |s| - n <= k < |s| ==> IsSpace(s[k])
    ensures n == |s| || !IsSpace(s[|s| - n - 1])
  {
    if |s| > 0 && IsSpace(s[|s| - 1]) then 1 + TrailingSpaces(s[..|s| - 1]) else 0
  }

  /** `str::trim`: `s` without its leading and trailing white space; the
      result neither starts nor ends with white space. */
  function Trim(s: string): (r: string)
    ensures |r| <= |s|
    ensures |r| > 0 ==> !IsSpace(r[0]) && !IsSpace(r[|r| - 1])
  {
    var t := s[LeadingSpaces(s)..];
    t[..|t| - TrailingSpaces(t)]
  }

  /** What `Trim` keeps is a contiguous slice of `s` and everything it drops
      is white space; a string with no white space is kept whole. */
  lemma TrimSpec(s: string)
    ensures exists i, j :: (0 <= i <= j <= |s| && Trim(s) == s[i..j]
                            && (forall k :: 0 <= k < i ==> IsSpace(s[k]))
                            && (forall k :: j <= k < |s| ==> IsSpace(s[k])))
    ensures (forall k :: 0 <= k < |s| ==> !IsSpace(s[k])) ==> Trim(s) == s
  {
    var i := LeadingSpaces(s);
    var t := s[i..];
    var j := |s| - TrailingSpaces(t);
    assert Trim(s) == s[i..j];
    forall k | j <= k < |s|
      ensures IsSpace(s[k])
    {
      assert s[k] == t[k - i];
    }
  }

  /** Trimming twice is trimming once. */
  lemma TrimIdempotent(s: string)
    ensures Trim(Trim(s)) == Trim(s)
  {
    var r := Trim(s);
    if |r| > 0 {
      assert LeadingSpaces(r) == 0;
      assert TrailingSpaces(r) == 0;
      assert r[0..] == r;
    }
  }

  // ---------------------------------------------------------------------------
  // integer parsing

  /** The range of a Rust primitive integer type. */
  datatype IntType = IntType(min: int, max: int)

  const I32 := IntType(-0x8000_0000, 0x7fff_ffff)
  const I64 := IntType(-0x8000_0000_0000_0000, 0x7fff_ffff_ffff_ffff)
  const U32 := IntType(0, 0xffff_ffff)

  predicate IsDigit(c: char) {
    '0' <= c <= '9'
  }

  predicate AllDigits(s: string) {
    forall k :: 0 <= k < |s| ==> IsDigit(s[k])
  }

  function DigitValue(c: char): (d: nat)
    requires IsDigit(c)
    ensures d < 10
  {
    c as int - '0' as int
  }

  function DigitChar(d: nat): (c: char)
    requires d < 10
    ensures IsDigit(c) && DigitValue(c) == d
  {
    ('0' as int + d) as char
  }

  /** The value of a string of decimal digits, most significant first. */
  function DigitsValue(s: string): nat
    requires AllDigits(s)
  {
    if |s| == 0 then 0 else DigitsValue(s[..|s| - 1]) * 10 + DigitValue(s[|s| - 1])
  }

  /** `str::parse` into the integer type `t`: an optional `+` (or `-` when the
      type is signed) followed by one or more decimal digits, whose value must
      lie within the type's range. Anything else is a parse error (`None`). */
  function ParseInt(s: string, t: IntType): (r: Option<int>)
    ensures r.Some? ==> t.min <= r.value <= t.max
    ensures r.Some? ==> |s| > 0 && (IsDigit(s[0]) || s[0] == '+' || (s[0] == '-' && t.min < 0))
    ensures r.Some? ==> AllDigits(s[1..])
  {
    if |s| == 0 then None
    else if (s[0] == '+' || s[0] == '-') && |s| == 1 then None
    else
      var negative := s[0] == '-' && t.min < 0;
      var digits := if s[0] == '+' || negative then s[1..] else s;
      if !AllDigits(digits) then None
      else
        var v: int := if negative then -(DigitsValue(digits) as int) else DigitsValue(digits);
        if t.min <= v <= t.max then Some(v) else None
  }

  /** The canonical decimal spelling of a natural number. */
  function ShowNat(n: nat): (s: string)
    ensures |s| >= 1 && AllDigits(s)
  {
    if n < 10 then [DigitChar(n)] else ShowNat(n / 10) + [DigitChar(n % 10)]
  }

  /** The canonical decimal spelling of an integer, `-` for negatives. */
  function ShowInt(n: int): string {
    if n < 0 then "-" + ShowNat(-n) else ShowNat(n)
  }

  lemma {:induction false} ShowNatValue(n: nat)
    ensures DigitsValue(ShowNat(n)) == n
  {
    if n >= 10 {
      ShowNatValue(n / 10);
      var s := ShowNat(n);
      assert s[..|s| - 1] == ShowNat(n / 10);
    }
  }

  /** Parsing inverts printing for every value of the target type. */
  lemma ParseShowInt(n: int, t: IntType)
    requires t.min <= n <= t.max
    ensures ParseInt(ShowInt(n), t) == Some(n)
  {
    var s := ShowInt(n);
    if n < 0 {
      ShowNatValue(-n);
      assert s[0] == '-' && s[1..] == ShowNat(-n);
      assert t.min < 0;
    } else {
      ShowNatValue(n);
      assert IsDigit(s[0]);
    }
  }
}
