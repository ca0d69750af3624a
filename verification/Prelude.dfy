/** Small shared datatypes. */
module Prelude {
  datatype Option<+T> = None | Some(value: T)

  function UpperChar(c: char): char {
    if 'a' <= c <= 'z' then (c as int - 32) as char else c
  }

  /** Upper case, for the ASCII letters. */
  function Upper(s: string): (u: string)
    ensures |u| == |s|
    ensures forall i :: 0 <= i < |s| ==> u[i] == UpperChar(s[i])
  {
    if s == "" then "" else [UpperChar(s[0])] + Upper(s[1..])
  }

  /** Lower-case letters are raised, everything else stays, and doing it twice changes nothing. */
  lemma UpperExact(s: string)
    ensures forall i :: 0 <= i < |s| ==>
              Upper(s)[i] as int == if 'a' <= s[i] <= 'z' then s[i] as int - 32 else s[i] as int
    ensures Upper(Upper(s)) == Upper(s)
  {
  }

  function Max(x: real, y: real): real {
    if x < y then y else x
  }

  /** Value of a quantity at a price. */
  function Notional(qty: real, price: real): real {
    qty * price
  }

  /** Tolerance within which a broker's quantity counts as the requested one. */
  const QTY_INTEGRAL_EPS: real := 0.000000001
}
