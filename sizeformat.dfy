/** The unit choice of `Core.format_size`. The text it then prints, the
    size divided out to one decimal place, is floating point and is not
    part of this model. */
module SizeFormat {

  datatype SizeUnit = B | KB | MB | GB

  /** The units in the order the loop tries them. */
  const Units: seq<SizeUnit> := [B, KB, MB, GB]

  function Pow1024(k: nat): nat
  {
    if k == 0 then 1 else 1024 * Pow1024(k - 1)
  }

  /** The loop of `Core.format_size`: `unit` is the label printed and the
      printed value is `size / 1024^divisions`. The loop stops at the first
      unit under which the value is below 1024; when none is, the label is
      `GB` but the value has been divided four times, as by `TB`. */
  method FormatUnit(size: nat) returns (unit: SizeUnit, divisions: nat)
    ensures divisions <= 4
    ensures unit == Units[if divisions == 4 then 3 else divisions]
    ensures forall j :: 1 <= j <= divisions ==> Pow1024(j) <= size
    ensures divisions < 4 ==> size < Pow1024(divisions + 1)
  {
    unit := B;
    divisions := 0;
    var divisor: nat := 1;
    while divisions < 4
      invariant divisions <= 4 && divisor == Pow1024(divisions)
      invariant divisions > 0 ==> unit == Units[divisions - 1]
      invariant forall j :: 1 <= j <= divisions ==> Pow1024(j) <= size
    {
      unit := Units[divisions];
      // `size < 1024` on the value already divided `divisions` times
      if size < 1024 * divisor {
        assert Pow1024(divisions + 1) == 1024 * divisor;
        return;
      }
      assert Pow1024(divisions + 1) == 1024 * divisor;
      divisor := divisor * 1024;
      divisions := divisions + 1;
    }
  }
}
