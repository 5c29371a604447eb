/**
 * `sec_to_hms`: the magnitude of a signed number of seconds as text made of an
 * hours part, a minutes part and a seconds part, each followed by a space.
 * Each part is emitted only when what is left exceeds its unit (strictly),
 * so 3600 seconds print as `60m ` and 60 seconds as `60s `.
 */
module Hms {
  import opened Decimal

  /** The three numbers `sec_to_hms` prints; a zero part is not printed. */
  datatype Parts = Parts(h: nat, m: nat, s: nat)

  function Magnitude(sec: int): nat {
    if sec < 0 then -sec else sec
  }

  /** The split `sec_to_hms` performs, with its strict comparisons. */
  function Split(n: nat): (p: Parts)
    ensures p.h * 3600 + p.m * 60 + p.s == n
    ensures p.m <= 60 && p.s <= 60
  {
    var h := if n > 3600 then n / 3600 else 0;
    var r := n - h * 3600;
    var m := if r > 60 then r / 60 else 0;
    Parts(h, m, r - m * 60)
  }

  /** One part: the number and its unit letter followed by a space, or nothing for zero. */
  function Part(v: nat, unit: char): (t: string)
    ensures t == "" <==> v == 0
  {
    if v > 0 then
      var t := NatToString(v) + [unit, ' '];
      assert |t| >= 2;
      t
    else ""
  }

  function Render(p: Parts): string {
    Part(p.h, 'h') + Part(p.m, 'm') + Part(p.s, 's')
  }

  /** The text `sec_to_hms(sec)` returns. */
  function HmsText(sec: int): (t: string)
    ensures t == "" <==> sec == 0
  {
    SplitParts(Magnitude(sec));
    Render(Split(Magnitude(sec)))
  }

  /** `sec_to_hms`, statement by statement: parts are appended to `out` and the remainder is kept in `n`. */
  method SecToHms(sec: int) returns (out: string)
    ensures out == HmsText(sec)
  {
    ghost var p := Split(Magnitude(sec));
    out := "";
    var n: nat := if sec < 0 then -sec else sec;
    if n > 60 * 60 {
      out := out + NatToString(n / (60 * 60)) + "h ";
      n := n - (n / (60 * 60)) * 60 * 60;
    }
    assert out == Part(p.h, 'h') && n == Magnitude(sec) - p.h * 3600;
    if n > 60 {
      out := out + NatToString(n / 60) + "m ";
      n := n - (n / 60) * 60;
    }
    assert out == Part(p.h, 'h') + Part(p.m, 'm') && n == p.s;
    if n > 0 {
      out := out + NatToString(n) + "s ";
    }
  }

  /**
   * The parts add back up to the magnitude; hours appear only above one hour,
   * minutes only when more than a minute is left; minutes and seconds never
   * exceed 60; minutes reach 60 only without an hours part, seconds only
   * without a minutes part.
   */
  lemma SplitParts(n: nat)
    ensures var p := Split(n);
      && p.h * 3600 + p.m * 60 + p.s == n
      && (p.h > 0 <==> n > 3600)
      && (p.m > 0 <==> n - p.h * 3600 > 60)
      && p.m <= 60 && p.s <= 60
      && (p.h > 0 ==> p.m < 60)
      && (p.m > 0 ==> p.s < 60)
  {
    var p := Split(n);
    var r := n - p.h * 3600;
    if n > 3600 {
      assert 0 <= r < 3600;
    } else {
      assert r == n;
    }
    if r > 60 {
      assert 0 <= r - p.m * 60 < 60;
    }
  }

  /** A surplus and a deficit of the same size print the same text. */
  lemma HmsIgnoresSign(sec: int)
    ensures HmsText(-sec) == HmsText(sec)
  {
  }

  /** One hour prints as sixty minutes, not as `1h `. */
  lemma HmsOneHour()
    ensures HmsText(3600) == "60m " && HmsText(-3600) == "60m "
  {
    assert Split(3600) == Parts(0, 60, 0);
    assert NatToString(60) == "60";
  }

  /** One minute prints as sixty seconds. */
  lemma HmsOneMinute()
    ensures HmsText(60) == "60s "
  {
    assert Split(60) == Parts(0, 0, 60);
    assert NatToString(60) == "60";
  }

  /** Sixty seconds past an hour print as `1h 60s `. */
  lemma HmsHourAndMinute()
    ensures HmsText(3660) == "1h 60s "
  {
    assert Split(3660) == Parts(1, 0, 60);
    assert NatToString(60) == "60";
    assert NatToString(1) == "1";
  }

  lemma HmsMixed()
    ensures HmsText(7200) == "2h "
    ensures HmsText(3661) == "1h 1m 1s "
  {
    assert Split(7200) == Parts(2, 0, 0);
    assert Split(3661) == Parts(1, 1, 1);
    assert NatToString(2) == "2";
    assert NatToString(1) == "1";
  }
}
