/** The names of part files, and their order in a directory listing. */
module PartNames {
  import opened Common
  import opened Sequences
  import opened Decimal

  function PartName(index: nat): string {
    "seg-" + Padded(index, 6) + ".part"
  }

  /** What has to stand between prefix and suffix of a part file, as a number. */
  function ParsePartName(name: string): Option<nat> {
    if |name| < 9 || name[..4] != "seg-" || name[|name| - 5..] != ".part" then None
    else ParseUnsigned(name[4..|name| - 5], TWO32 - 1)
  }

  lemma PartNameParses(index: nat)
    requires index < TWO32
    ensures ParsePartName(PartName(index)) == Some(index)
  {
    var digits := Padded(index, 6);
    var name := PartName(index);
    assert name[..4] == "seg-" && name[|name| - 5..] == ".part" && name[4..|name| - 5] == digits;
    ParsePrinted(index, TWO32 - 1, 6);
  }

  /** A part file's name: a number of at most 32 bits between prefix and suffix. */
  ghost predicate IsPartName(name: string) {
    exists middle: string, n: nat :: name == "seg-" + middle + ".part" && IsNumeral(middle, n) && n < TWO32
  }

  /** Which names are read as part names, and of which index: wrong ends, no digits and large numbers are refused. */
  lemma ParsePartNameIff(name: string)
    ensures ParsePartName(name).Some? <==> IsPartName(name)
    ensures forall middle: string, n: nat ::
              name == "seg-" + middle + ".part" && IsNumeral(middle, n) && n < TWO32 ==> ParsePartName(name) == Some(n)
  {
    if ParsePartName(name).Some? {
      var middle, n := name[4..|name| - 5], ParsePartName(name).value;
      ParseUnsignedIff(middle, TWO32 - 1, n);
      assert name == "seg-" + middle + ".part";
    }
    forall middle: string, n: nat | name == "seg-" + middle + ".part" && IsNumeral(middle, n) && n < TWO32
      ensures ParsePartName(name) == Some(n)
    {
      assert name[..4] == "seg-" && name[|name| - 5..] == ".part" && name[4..|name| - 5] == middle;
      ParseUnsignedIff(middle, TWO32 - 1, n);
    }
  }

  /** How a part name is written: at least six digits, and zeros in front only to make six. */
  lemma PartNameText(index: nat) returns (d: string)
    ensures PartName(index) == "seg-" + d + ".part"
    ensures AllDigits(d) && Value(d) == index && |d| >= 6 && (|d| > 6 ==> d[0] != '0')
  {
    d := Padded(index, 6);
    PaddedMeans(index, 6);
  }

  lemma PartNamesDiffer(i: nat, j: nat)
    requires i < TWO32 && j < TWO32 && i != j
    ensures PartName(i) != PartName(j)
  {
    PartNameParses(i);
    PartNameParses(j);
  }

  function NotAfter(): (string, string) -> bool {
    (a: string, b: string) => a == b || Before(a, b)
  }

  lemma NameOrderIsTotal()
    ensures TotalPreorder(NotAfter())
  {
    forall a, b, c | NotAfter()(a, b) && NotAfter()(b, c)
      ensures NotAfter()(a, c)
    {
      if a != b && b != c {
        BeforeTransitive(a, b, c);
      }
    }
    forall a, b
      ensures NotAfter()(a, b) || NotAfter()(b, a)
    {
      BeforeTotal(a, b);
    }
  }

  lemma SixDigits()
    ensures Pow10(6) == 1_000_000
  {
    assert Pow10(1) == 10;
    assert Pow10(2) == 100;
    assert Pow10(3) == 1_000;
    assert Pow10(4) == 10_000;
    assert Pow10(5) == 100_000;
  }

  /** Below one million, name order is index order. */
  lemma PartNameOrder(i: nat, j: nat)
    requires i < 1_000_000 && j < 1_000_000
    ensures Before(PartName(i), PartName(j)) <==> i < j
  {
    SixDigits();
    PaddedShape(i, 6);
    PaddedShape(j, 6);
    FixedOrder(i, j, 6);
    var a, b := Fixed(i, 6), Fixed(j, 6);
    assert PartName(i) == "seg-" + (a + ".part") && PartName(j) == "seg-" + (b + ".part");
    BeforePrefix("seg-", a + ".part", b + ".part");
    BeforeSuffix(a, b, ".part");
  }

  lemma MillionWidth()
    ensures Width(1_000_000) == 7 && Width(999_999) == 6
  {
    assert Width(10) == 2 && Width(99) == 2;
    assert Width(100) == 3 && Width(999) == 3;
    assert Width(1_000) == 4 && Width(9_999) == 4;
    assert Width(10_000) == 5 && Width(99_999) == 5;
    assert Width(100_000) == 6;
  }

  function LeadingDigit(n: nat, w: nat): (d: nat)
    requires 0 < w && n < Pow10(w)
    ensures d < 10
  {
    if w == 1 then n else LeadingDigit(n / 10, w - 1)
  }

  lemma MillionDigits()
    ensures 1_000_000 < Pow10(7) && 999_999 < Pow10(6)
    ensures LeadingDigit(1_000_000, 7) == 1 && LeadingDigit(999_999, 6) == 9
  {
    SixDigits();
    assert LeadingDigit(10, 2) == 1 && LeadingDigit(99, 2) == 9;
    assert LeadingDigit(100, 3) == 1 && LeadingDigit(999, 3) == 9;
    assert LeadingDigit(1_000, 4) == 1 && LeadingDigit(9_999, 4) == 9;
    assert LeadingDigit(10_000, 5) == 1 && LeadingDigit(99_999, 5) == 9;
    assert LeadingDigit(100_000, 6) == 1;
  }

  lemma FirstCharDecides(a: string, b: string)
    requires a != "" && b != "" && a[0] < b[0]
    ensures Before("seg-" + a + ".part", "seg-" + b + ".part")
  {
    BeforePrefix("seg-", a + ".part", b + ".part");
    assert "seg-" + a + ".part" == "seg-" + (a + ".part") && "seg-" + b + ".part" == "seg-" + (b + ".part");
  }

  lemma {:induction false} FirstFixed(n: nat, w: nat)
    requires 0 < w && n < Pow10(w)
    ensures Fixed(n, w)[0] == DigitChar(LeadingDigit(n, w))
  {
    if w > 1 {
      FirstFixed(n / 10, w - 1);
    }
  }

  lemma MillionSortsFirst()
    ensures Before(PartName(1_000_000), PartName(999_999))
  {
    MillionWidth();
    MillionDigits();
    FirstFixed(1_000_000, 7);
    FirstFixed(999_999, 6);
    FirstCharDecides(Fixed(1_000_000, 7), Fixed(999_999, 6));
  }

  /** The parts of a plan of `n` segments are listed in index order if and only if there are at most a million. */
  lemma NameOrderIff(n: nat)
    ensures (forall i, j :: 0 <= i < j < n ==> Before(PartName(i), PartName(j))) <==> n <= 1_000_000
  {
    if n <= 1_000_000 {
      forall i, j | 0 <= i < j < n
        ensures Before(PartName(i), PartName(j))
      {
        PartNameOrder(i, j);
      }
    } else {
      MillionSortsFirst();
      BeforeTotal(PartName(1_000_000), PartName(999_999));
      assert !Before(PartName(999_999), PartName(1_000_000));
    }
  }
}
