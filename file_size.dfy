/** `FormatFileSize` (OneNoteAddinManager.App/ViewModels/DllInfoViewModel.cs):
    the size shown in the DLL panel. The source works on `decimal`; here the
    amount is an exact rational. The unit index is the number of times the
    amount is divided by 1024, and `Math.Round` on a `decimal` rounds half to
    even. */
module FileSize {
  import opened Wrappers

  /** A formatted size: the amount (shown with one decimal by `n1`) and its unit. */
  datatype SizeText = SizeText(amount: real, unit: string)

  const Units: seq<string> := ["B", "KB", "MB", "GB", "TB"]

  /** `Math.Round(decimal)`: the nearest integer, a tie going to the even one. */
  function RoundHalfEven(x: real): (n: int)
    ensures n as real - 0.5 <= x <= n as real + 0.5
    ensures (x == n as real - 0.5 || x == n as real + 0.5) ==> n % 2 == 0
  {
    var f := x.Floor;
    var d := x - f as real;
    if d < 0.5 then f
    else if d > 0.5 then f + 1
    else if f % 2 == 0 then f
    else f + 1
  }

  /** The loop test `Math.Round(n / 1024) >= 1` holds exactly when the
      amount exceeds 512: half of 1024 rounds down to 0. */
  lemma RoundReachesOne(x: real)
    ensures RoundHalfEven(x / 1024.0) >= 1 <==> x > 512.0
  {
    var y := x / 1024.0;
    var n := RoundHalfEven(y);
    if y > 0.5 {
      assert n >= 1;
    } else if y == 0.5 {
      assert n == 0;
    } else {
      assert n <= 0;
    }
  }

  function Pow1024(k: nat): (p: real)
    ensures p >= 1.0
  {
    if k == 0 then 1.0 else 1024.0 * Pow1024(k - 1)
  }

  /** How many times the loop divides an amount by 1024. */
  function Divisions(x: real): nat
    decreases if x <= 0.0 then 0 else x.Floor
  {
    RoundReachesOne(x);
    if RoundHalfEven(x / 1024.0) >= 1 then 1 + Divisions(x / 1024.0) else 0
  }

  /** At most k divisions happen exactly for amounts up to 512 * 1024^k. */
  lemma {:induction false} DivisionsAtMost(x: real, k: nat)
    ensures Divisions(x) <= k <==> x <= 512.0 * Pow1024(k)
    decreases k
  {
    RoundReachesOne(x);
    if k > 0 && x > 512.0 {
      DivisionsAtMost(x / 1024.0, k - 1);
    }
  }

  /** Divided k times, x is the original amount over 1024^k. */
  function DividedBy(x: real, k: nat): (y: real)
    ensures y == x / Pow1024(k)
  {
    x / Pow1024(k)
  }

  /** The amount left after the divisions is x itself when x is at most 512,
      and lies in (0.5, 512] otherwise. */
  lemma {:induction false} DividedInRange(x: real)
    ensures x <= 512.0 ==> Divisions(x) == 0
    ensures x > 512.0 ==> 0.5 < DividedBy(x, Divisions(x)) <= 512.0
    decreases if x <= 0.0 then 0 else x.Floor
  {
    RoundReachesOne(x);
    if x > 512.0 {
      var y := x / 1024.0;
      DividedInRange(y);
      ShiftDivision(x, Divisions(y));
      if y <= 512.0 {
        assert Divisions(x) == 1;
      }
    }
  }

  /** One division first, then k more, is k + 1 divisions. */
  lemma ShiftDivision(x: real, k: nat)
    ensures DividedBy(x / 1024.0, k) == DividedBy(x, k + 1)
  {
    assert Pow1024(k + 1) == 1024.0 * Pow1024(k);
  }

  /** Dividing once more by 1024 is one more division. */
  lemma DivideOnce(x: real, k: nat)
    ensures DividedBy(x, k) / 1024.0 == DividedBy(x, k + 1)
  {
    var p := Pow1024(k);
    var q := x / p;
    assert Pow1024(k + 1) == 1024.0 * p;
    assert q * p == x;
    assert (q / 1024.0) * (1024.0 * p) == x;
  }

  /** `FormatFileSize` as written: the loop is not bounded by the five
      units, so a sixth division indexes past "TB" and throws. */
  method FormatFileSizeAsWritten(bytes: int) returns (r: Result<SizeText, Exception>)
    ensures r.Success? <==> Divisions(bytes as real) < |Units|
    ensures r.Failure? ==> r.error == IndexOutOfRange
    ensures r.Success? ==> r.value == SizeText(DividedBy(bytes as real, Divisions(bytes as real)), Units[Divisions(bytes as real)])
    ensures r.Success? ==> RoundHalfEven(r.value.amount / 1024.0) < 1
  {
    var counter := 0;
    var number: real := bytes as real;
    while RoundHalfEven(number / 1024.0) >= 1
      invariant number == DividedBy(bytes as real, counter)
      invariant Divisions(bytes as real) == counter + Divisions(number)
      decreases Divisions(number)
    {
      RoundReachesOne(number);
      DivideOnce(bytes as real, counter);
      number := number / 1024.0;
      counter := counter + 1;
    }
    if counter < |Units| {
      r := Success(SizeText(number, Units[counter]));
    } else {
      r := Failure(IndexOutOfRange);
    }
  }

  /** The largest amount FormatFileSizeAsWritten can format: 512 TB. */
  const LargestFormatted: real := 512.0 * 1024.0 * 1024.0 * 1024.0 * 1024.0

  /** FormatFileSizeAsWritten fails exactly above 512 * 1024^4 bytes; one
      pebibyte is such an input. */
  lemma AsWrittenFailsAbove512Tebibytes(bytes: int)
    ensures Divisions(bytes as real) < |Units| <==> bytes as real <= LargestFormatted
    ensures Divisions((1024 * 1024 * 1024 * 1024 * 1024) as real) >= |Units|
  {
    DivisionsAtMost(bytes as real, 4);
    assert Pow1024(4) == 1024.0 * 1024.0 * 1024.0 * 1024.0;
    DivisionsAtMost((1024 * 1024 * 1024 * 1024 * 1024) as real, 4);
  }

  function Min(a: nat, b: nat): nat {
    if a < b then a else b
  }

  /** The number of divisions once they stop at the last unit. */
  function UnitIndex(bytes: int): (k: nat)
    ensures k < |Units|
  {
    Min(Divisions(bytes as real), |Units| - 1)
  }

  /** The size of FormatFileSize: the amount over 1024^k in the k-th unit. */
  function FileSizeOf(bytes: int): SizeText {
    SizeText(DividedBy(bytes as real, UnitIndex(bytes)), Units[UnitIndex(bytes)])
  }

  /** `FormatFileSize` with the loop also bounded by the last unit, so sizes
      beyond 512 TB are shown in TB. */
  method FormatFileSize(bytes: int) returns (s: SizeText)
    ensures s == FileSizeOf(bytes)
  {
    var counter := 0;
    var number: real := bytes as real;
    while counter < |Units| - 1 && RoundHalfEven(number / 1024.0) >= 1
      invariant counter <= |Units| - 1
      invariant number == DividedBy(bytes as real, counter)
      invariant Divisions(bytes as real) == counter + Divisions(number)
      decreases |Units| - counter
    {
      RoundReachesOne(number);
      DivideOnce(bytes as real, counter);
      number := number / 1024.0;
      counter := counter + 1;
    }
    s := SizeText(number, Units[counter]);
  }

  /** FormatFileSize agrees with the source wherever the source does not
      throw; an amount up to 512 bytes stays in bytes, a larger amount shows a
      number in (0.5, 512]. */
  lemma FileSizeOfAgrees(bytes: int)
    ensures bytes as real <= LargestFormatted ==>
      && UnitIndex(bytes) == Divisions(bytes as real)
      && FileSizeOf(bytes) == SizeText(DividedBy(bytes as real, Divisions(bytes as real)), Units[Divisions(bytes as real)])
    ensures bytes <= 512 ==> FileSizeOf(bytes) == SizeText(bytes as real, "B")
    ensures 512 < bytes && bytes as real <= LargestFormatted ==> 0.5 < FileSizeOf(bytes).amount <= 512.0
  {
    AsWrittenFailsAbove512Tebibytes(bytes);
    DividedInRange(bytes as real);
  }

  /** 20 bytes stay in B with amount 20, 1536 bytes give 1.5 in KB, and
      exactly 512 bytes stay in B because 0.5 rounds to 0. */
  lemma FileSizeExamples()
    ensures FileSizeOf(20) == SizeText(20.0, "B")
    ensures FileSizeOf(512) == SizeText(512.0, "B")
    ensures FileSizeOf(1536) == SizeText(1.5, "KB")
  {
    FileSizeOfAgrees(20);
    FileSizeOfAgrees(512);
    RoundReachesOne(1536.0);
    RoundReachesOne(1.5);
    assert Divisions(1.5) == 0;
    assert Divisions(1536.0) == 1;
  }
}
