/**
 * Parsing of the path and query parameters the handlers read: the post id
 * through `strconv.ParseUint(s, 10, 64)` and `limit`/`offset` through
 * `strconv.Atoi`, whose decimal grammar and 64-bit ranges are written out.
 */
module Params {
  import opened Wrappers

  /** Largest value of Go's `uint64`. */
  const MaxUint64: nat := 0xFFFF_FFFF_FFFF_FFFF
  /** Largest value of Go's `int` (64 bits wide on the platforms the server targets). */
  const MaxInt64: int := 0x7FFF_FFFF_FFFF_FFFF

  predicate IsDigit(c: char) {
    '0' <= c <= '9'
  }

  predicate AllDigits(s: string) {
    forall i :: 0 <= i < |s| ==> IsDigit(s[i])
  }

  function DigitValue(c: char): nat
    requires IsDigit(c)
  {
    c as int - '0' as int
  }

  /** The value of a digit string read left to right onto `acc`. */
  function Decimal(acc: nat, s: string): nat
    requires AllDigits(s)
    decreases |s|
  {
    if |s| == 0 then acc else Decimal(acc * 10 + DigitValue(s[0]), s[1..])
  }

  /** Decimal rendering without leading zeros (Go's `strconv.FormatUint(n, 10)`). */
  function FormatUint(n: nat): (r: string)
    ensures |r| > 0 && AllDigits(r)
  {
    var d := ['0' + (n % 10) as char];
    if n < 10 then d else FormatUint(n / 10) + d
  }

  /**
   * Go's digit loop: each digit is appended to the accumulator, and the
   * scan fails as soon as a character is not a digit or the accumulator
   * leaves the 64-bit range.
   */
  function ScanDigits(acc: nat, s: string): Option<nat>
    decreases |s|
  {
    if |s| == 0 then Some(acc)
    else if !IsDigit(s[0]) then None
    else
      var n := acc * 10 + DigitValue(s[0]);
      if n > MaxUint64 then None else ScanDigits(n, s[1..])
  }

  /** `strconv.ParseUint(s, 10, 64)`: no sign, no separators, at least one digit. */
  function ParseUint(s: string): (r: Option<nat>)
    ensures r.Some? <==> |s| > 0 && AllDigits(s) && Decimal(0, s) <= MaxUint64
    ensures r.Some? ==> r.value == Decimal(0, s)
  {
    ScanCorrect(0, s);
    if |s| == 0 then None else ScanDigits(0, s)
  }

  /**
   * `strconv.Atoi(s)`: an optional `+` or `-`, then at least one digit, with
   * the result inside the signed 64-bit range.
   */
  function Atoi(s: string): (r: Option<int>)
    ensures r.Some? ==> -MaxInt64 - 1 <= r.value <= MaxInt64
  {
    var negative := |s| > 0 && s[0] == '-';
    var digits := if |s| > 0 && (s[0] == '-' || s[0] == '+') then s[1..] else s;
    match ParseUint(digits)
    case None => None
    case Some(m) =>
      if negative then (if m <= MaxInt64 + 1 then Some(-(m as int)) else None)
      else (if m <= MaxInt64 then Some(m) else None)
  }

  /** The `limit` and `offset` the list query applies; an absent limit means no limit. */
  datatype Page = Page(limit: Option<nat>, offset: nat)

  /**
   * The validation of `limit` then `offset` in the post listing: an empty
   * parameter (absent or given empty) is ignored, `limit` must be an integer
   * above zero and `offset` an integer of at least zero.
   */
  function ParsePage(limit: string, offset: string): (r: Result<Page>)
    ensures limit != "" && (Atoi(limit).None? || Atoi(limit).value <= 0) ==> r == Err("invalid limit")
    ensures (limit == "" || (Atoi(limit).Some? && Atoi(limit).value > 0))
            && offset != "" && (Atoi(offset).None? || Atoi(offset).value < 0)
            ==> r == Err("invalid offset")
    ensures (limit == "" || (Atoi(limit).Some? && Atoi(limit).value > 0))
            && (offset == "" || (Atoi(offset).Some? && Atoi(offset).value >= 0))
            ==> r.Ok?
    ensures r.Ok? ==> (r.value.limit.None? <==> limit == "")
    ensures r.Ok? && limit != "" ==> Atoi(limit) == Some(r.value.limit.value as int) && r.value.limit.value > 0
    ensures r.Ok? ==> (if offset == "" then r.value.offset == 0 else Atoi(offset) == Some(r.value.offset as int))
  {
    var lim: Result<Option<nat>> :=
      if limit == "" then Ok(None)
      else match Atoi(limit)
        case Some(n) => if n > 0 then Ok(Some(n as nat)) else Err("invalid limit")
        case None => Err("invalid limit");
    if lim.Err? then Err(lim.message)
    else
      var off: Result<nat> :=
        if offset == "" then Ok(0)
        else match Atoi(offset)
          case Some(n) => if n >= 0 then Ok(n as nat) else Err("invalid offset")
          case None => Err("invalid offset");
      if off.Err? then Err(off.message) else Ok(Page(lim.value, off.value))
  }

  /** Reading on from `acc`: the scan succeeds exactly when the whole value fits in 64 bits. */
  lemma {:induction false} ScanCorrect(acc: nat, s: string)
    requires acc <= MaxUint64
    ensures ScanDigits(acc, s).Some? <==> AllDigits(s) && Decimal(acc, s) <= MaxUint64
    ensures ScanDigits(acc, s).Some? ==> ScanDigits(acc, s).value == Decimal(acc, s)
    decreases |s|
  {
    if |s| > 0 && IsDigit(s[0]) {
      var n := acc * 10 + DigitValue(s[0]);
      assert AllDigits(s) <==> AllDigits(s[1..]) by {
        if AllDigits(s[1..]) {
          forall i | 0 <= i < |s| ensures IsDigit(s[i]) {
            if i > 0 { assert s[i] == s[1..][i - 1]; }
          }
        }
      }
      if n <= MaxUint64 {
        ScanCorrect(n, s[1..]);
      } else if AllDigits(s) {
        DecimalAtLeast(n, s[1..]);
      }
    }
  }

  lemma {:induction false} DecimalAtLeast(acc: nat, s: string)
    requires AllDigits(s)
    ensures Decimal(acc, s) >= acc
    decreases |s|
  {
    if |s| > 0 {
      DecimalAtLeast(acc * 10 + DigitValue(s[0]), s[1..]);
    }
  }

  lemma {:induction false} DecimalAppend(acc: nat, s: string, t: string)
    requires AllDigits(s) && AllDigits(t)
    ensures AllDigits(s + t) && Decimal(acc, s + t) == Decimal(Decimal(acc, s), t)
    decreases |s|
  {
    if |s| == 0 {
      assert s + t == t;
    } else {
      assert (s + t)[1..] == s[1..] + t;
      DecimalAppend(acc * 10 + DigitValue(s[0]), s[1..], t);
    }
  }

  /** Reading back a rendered value gives the value: every uint64 id round-trips. */
  lemma {:induction false} DecimalOfFormat(n: nat)
    ensures Decimal(0, FormatUint(n)) == n
  {
    var d := ['0' + (n % 10) as char];
    if n >= 10 {
      DecimalOfFormat(n / 10);
      DecimalAppend(0, FormatUint(n / 10), d);
    }
  }

  lemma ParseUintFormat(n: nat)
    requires n <= MaxUint64
    ensures ParseUint(FormatUint(n)) == Some(n)
  {
    DecimalOfFormat(n);
  }

  /** A sign, a space or an empty string is never a post id; the first value past 64 bits is rejected. */
  lemma ParseUintRejects(n: nat)
    requires n <= MaxUint64
    ensures ParseUint("") == None
    ensures ParseUint("+" + FormatUint(n)) == None && ParseUint("-" + FormatUint(n)) == None
    ensures ParseUint(" " + FormatUint(n)) == None
    ensures ParseUint(FormatUint(MaxUint64 + 1)) == None
  {
    DecimalOfFormat(MaxUint64 + 1);
    assert !IsDigit(("+" + FormatUint(n))[0]);
    assert !IsDigit(("-" + FormatUint(n))[0]);
    assert !IsDigit((" " + FormatUint(n))[0]);
  }

  /** Leading zeros do not change the id: "007" and "7" name the same post. */
  lemma LeadingZero(s: string)
    requires |s| > 0
    ensures ParseUint("0" + s) == ParseUint(s)
  {
    if AllDigits(s) {
      DecimalAppend(0, "0", s);
    } else {
      var i :| 0 <= i < |s| && !IsDigit(s[i]);
      assert ("0" + s)[i + 1] == s[i];
    }
  }

  /** Atoi accepts every rendered int, with or without a leading `+`. */
  lemma AtoiFormat(n: nat)
    requires n <= MaxInt64
    ensures Atoi(FormatUint(n)) == Some(n as int)
    ensures Atoi("+" + FormatUint(n)) == Some(n as int)
    ensures Atoi("-" + FormatUint(n)) == Some(-(n as int))
  {
    ParseUintFormat(n);
    var f := FormatUint(n);
    assert f[0] != '-' && f[0] != '+' by { assert IsDigit(f[0]); }
    assert ("+" + f)[1..] == f;
    assert ("-" + f)[1..] == f;
  }

  /** Absent parameters mean no limit and no offset; the first invalid parameter decides the message. */
  lemma PageDefaultsAndPrecedence(limit: string, offset: string)
    ensures ParsePage("", "") == Ok(Page(None, 0))
    ensures ParsePage("0", offset) == Err("invalid limit")
    ensures ParsePage("-1", offset) == Err("invalid limit")
    ensures ParsePage("2", "1") == Ok(Page(Some(2), 1))
    ensures ParsePage("", "-1") == Err("invalid offset")
    ensures ParsePage("abc", offset) == Err("invalid limit")
  {
    AtoiFormat(0);
    AtoiFormat(1);
    AtoiFormat(2);
    assert FormatUint(0) == "0" && FormatUint(1) == "1" && FormatUint(2) == "2";
    assert ("-" + FormatUint(1)) == "-1";
    assert !IsDigit("abc"[0]);
  }
}
