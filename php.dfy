/** Result and outcome wrappers shared by the installer and cron models. */
module Wrappers {

  datatype Option<+T> = None | Some(value: T)

  datatype Result<+R, +E> = Success(value: R) | Failure(error: E)

  /** A check that either passes or fails with an error (a PHP method that returns void or throws). */
  datatype Outcome<+E> = Pass | Fail(error: E)
}

/**
 * The few pieces of PHP's value semantics the installer relies on:
 * request values, empty(), trim(), the null-coalescing operator `??`
 * and the loose comparison `==` / `!=` between two strings.
 */
module Php {

  import opened Wrappers

  /** A request value as returned by Request::get: absent (null) or a string. */
  datatype Value = Null | Str(s: string)

  /** The data handed from one step to the next: field name to request value. */
  type Data = map<string, Value>

  /** empty() on a string: "" and "0" are empty. */
  predicate EmptyString(s: string)
  {
    s == "" || s == "0"
  }

  /** empty() on a request value: null, "" and "0" are empty. */
  predicate Empty(v: Value)
  {
    v.Null? || EmptyString(v.s)
  }

  /** The characters trim() strips by default: space, \t, \n, \r, \0 and \x0B. */
  predicate Trimmable(c: char)
  {
    c == ' ' || c == '\t' || c == '\n' || c == '\r' || c == '\0' || c == '\U{000B}'
  }

  function TrimLeft(s: string): (r: string)
    ensures r == [] || !Trimmable(r[0])
    ensures |r| <= |s| && r == s[|s| - |r|..]
  {
    if s != [] && Trimmable(s[0]) then TrimLeft(s[1..]) else s
  }

  function TrimRight(s: string): (r: string)
    ensures r == [] || !Trimmable(r[|r| - 1])
    ensures |r| <= |s| && r == s[..|r|]
  {
    if s != [] && Trimmable(s[|s| - 1]) then TrimRight(s[..|s| - 1]) else s
  }

  /** trim($s) with the default character list. */
  function Trim(s: string): (t: string)
  {
    TrimRight(TrimLeft(s))
  }

  /** A string that does not start with a trimmable character keeps its first character under trim(). */
  lemma TrimKeepsFirst(s: string)
    requires s != [] && !Trimmable(s[0])
    ensures Trim(s) != [] && Trim(s)[0] == s[0]
  {
    assert TrimLeft(s) == s;
    var r := TrimRight(s);
    if r == [] {
      TrimRightNonEmpty(s);
    }
  }

  lemma {:induction false} TrimRightNonEmpty(s: string)
    requires s != [] && !Trimmable(s[0])
    ensures TrimRight(s) != []
  {
    if Trimmable(s[|s| - 1]) {
      assert |s| > 1;
      TrimRightNonEmpty(s[..|s| - 1]);
    }
  }

  /** `$data[$key] ?? $default`: the value when the key is set and not null, the default otherwise. */
  function Coalesce(data: Data, key: string, default: string): (r: string)
    ensures key in data && data[key].Str? ==> r == data[key].s
    ensures (key !in data || data[key].Null?) ==> r == default
  {
    if key in data && data[key].Str? then data[key].s else default
  }

  // ---------------------------------------------------------------------------
  // Loose comparison of two strings (PHP 8): when both are numeric strings they
  // are compared as numbers, otherwise byte by byte.  The model recognises the
  // integer numeric strings (an optional sign followed by decimal digits, within
  // the 64-bit integer range).
  // ---------------------------------------------------------------------------

  const IntMin: int := -0x8000_0000_0000_0000
  const IntMax: int := 0x7FFF_FFFF_FFFF_FFFF

  predicate IsDigit(c: char)
  {
    '0' <= c <= '9'
  }

  predicate AllDigits(s: string)
  {
    forall i :: 0 <= i < |s| ==> IsDigit(s[i])
  }

  function DigitsValue(s: string): (v: nat)
    requires AllDigits(s)
  {
    if s == [] then 0 else 10 * DigitsValue(s[..|s| - 1]) + (s[|s| - 1] as int - '0' as int)
  }

  /** The value of an optionally signed digit string, when it has one. */
  function IntegerValue(s: string): (r: Option<int>)
  {
    if |s| > 0 && (s[0] == '-' || s[0] == '+') then
      (if |s| > 1 && AllDigits(s[1..]) then
         var magnitude: int := DigitsValue(s[1..]);
         Some(if s[0] == '-' then -magnitude else magnitude)
       else None)
    else if |s| > 0 && AllDigits(s) then Some(DigitsValue(s))
    else None
  }

  /** An integer numeric string whose value fits a PHP int. */
  predicate IntegerNumeric(s: string)
  {
    var v := IntegerValue(s);
    v.Some? && IntMin <= v.value <= IntMax
  }

  /** `$a == $b` on two strings. */
  predicate LooseEquals(a: string, b: string)
  {
    if IntegerNumeric(a) && IntegerNumeric(b) then IntegerValue(a) == IntegerValue(b) else a == b
  }

  /** A string starting with a letter is never numeric. */
  lemma LetterStartNotNumeric(s: string)
    requires |s| > 0 && 'a' <= s[0] <= 'z'
    ensures !IntegerNumeric(s)
  {
    assert !IsDigit(s[0]);
  }

  /** Loose equality identifies strings that differ only by leading zeros. */
  lemma LeadingZerosLooselyEqual()
    ensures LooseEquals("007", "7") && "007" != "7"
  {
    assert AllDigits("007") && AllDigits("7");
    assert "007"[..2] == "00" && "00"[..1] == "0" && "0"[..0] == [];
    assert "7"[..0] == [];
    assert DigitsValue("007") == 7;
    assert DigitsValue("7") == 7;
  }
}
