/** Times of day as the HTML `time` inputs deliver them: `HH:MM` strings.
    The add-availability form compares them with JavaScript's `<` on
    strings; this module proves that, for well-formed values, that
    comparison is the comparison of clock times. */
module TimeOfDay {

  const MsPerMinute := 60_000

  predicate IsDigit(c: char)
  {
    '0' <= c <= '9'
  }

  function DigitValue(c: char): (d: nat)
    requires IsDigit(c)
    ensures d < 10
  {
    (c as int) - ('0' as int)
  }

  /** Two digits, a colon, two digits, the minutes below 60. */
  predicate WellFormed(t: string)
  {
    |t| == 5 && IsDigit(t[0]) && IsDigit(t[1]) && t[2] == ':' &&
    '0' <= t[3] <= '5' && IsDigit(t[4])
  }

  /** Minutes since midnight of an `HH:MM` value. */
  function Minutes(t: string): (m: nat)
    requires WellFormed(t)
    ensures m < 100 * 60
  {
    (DigitValue(t[0]) * 10 + DigitValue(t[1])) * 60 + DigitValue(t[3]) * 10 + DigitValue(t[4])
  }

  /** JavaScript's `a < b` on strings: lexicographic order on characters,
      a proper prefix coming first. */
  predicate StrLess(a: string, b: string)
  {
    if b == [] then false
    else if a == [] then true
    else if a[0] != b[0] then a[0] < b[0]
    else StrLess(a[1..], b[1..])
  }

  /** `StrLess` is irreflexive: `t < t` never holds, so `t >= t` always does. */
  lemma {:induction false} StrLessIrreflexive(t: string)
    ensures !StrLess(t, t)
    decreases |t|
  {
    if t != [] {
      StrLessIrreflexive(t[1..]);
    }
  }

  /** Comparing two well-formed `HH:MM` strings as strings orders them as
      clock times. */
  lemma {:induction false} StrLessIsClockOrder(a: string, b: string)
    requires WellFormed(a) && WellFormed(b)
    ensures StrLess(a, b) <==> Minutes(a) < Minutes(b)
  {
    var a0, a1, a3, a4 := DigitValue(a[0]), DigitValue(a[1]), DigitValue(a[3]), DigitValue(a[4]);
    var b0, b1, b3, b4 := DigitValue(b[0]), DigitValue(b[1]), DigitValue(b[3]), DigitValue(b[4]);
    assert a3 < 6 && b3 < 6;
    if a[0] != b[0] {
      assert StrLess(a, b) <==> a0 < b0;
    } else {
      assert StrLess(a, b) == StrLess(a[1..], b[1..]);
      if a[1] != b[1] {
        assert StrLess(a, b) <==> a1 < b1;
      } else {
        assert StrLess(a[1..], b[1..]) == StrLess(a[2..], b[2..]);
        assert a[2..][1..] == a[3..] && b[2..][1..] == b[3..];
        assert StrLess(a[2..], b[2..]) == StrLess(a[3..], b[3..]);
        if a[3] != b[3] {
          assert StrLess(a, b) <==> a3 < b3;
        } else {
          assert a[3..][1..] == a[4..] && b[3..][1..] == b[4..];
          assert StrLess(a[3..], b[3..]) == StrLess(a[4..], b[4..]);
          if a[4] != b[4] {
            assert StrLess(a, b) <==> a4 < b4;
          } else {
            assert a == b;
            StrLessIrreflexive(a);
          }
        }
      }
    }
  }
}
