/**
 `detail::getVersion`: the decimal parser behind the run-time checks for
 OpenCL 1.2.  Version strings have the form of section 4.1 of the OpenCL 1.2
 specification, "OpenCL major.minor" followed by a space or the terminating NUL.
 */
module Version {

  const NUL := '\0'
  const PREFIX := "OpenCL "

  predicate IsDigit(c: char) { '0' <= c <= '9' }

  predicate Digits(s: string, from: nat, to: nat) {
    from <= to <= |s| && forall i :: from <= i < to ==> IsDigit(s[i])
  }

  /** The number denoted by the digits of `s` from `from` up to `to`. */
  function Number(s: string, from: nat, to: nat): (n: nat)
    requires Digits(s, from, to)
  {
    if from == to then 0
    else 10 * Number(s, from, to - 1) + (s[to - 1] as int - '0' as int)
  }

  function Decimal(n: nat): (s: string)
    ensures Digits(s, 0, |s|)
  {
    var last := [('0' as int + n % 10) as char];
    if n < 10 then last else Decimal(n / 10) + last
  }

  /** `a | b` on non-negative integers, bit by bit. */
  function BitOr(a: nat, b: nat): nat {
    if a == 0 && b == 0 then 0
    else 2 * BitOr(a / 2, b / 2) + (if a % 2 == 1 || b % 2 == 1 then 1 else 0)
  }

  function Pow2(k: nat): nat { if k == 0 then 1 else 2 * Pow2(k - 1) }

  function Pack(major: nat, minor: nat): nat { BitOr(major * 0x10000, minor) }

  /** The first position at or after `from` that satisfies the loop's stop condition, if any. */
  function Find(s: string, from: nat, minorPart: bool): (r: nat)
    requires from <= |s|
    ensures from <= r <= |s|
    decreases |s| - from
  {
    if from == |s| || Stops(s[from], minorPart) then from else Find(s, from + 1, minorPart)
  }

  predicate Stops(c: char, minorPart: bool) {
    if minorPart then c == ' ' || c == NUL else c == '.'
  }

  /** What the parser needs of its input: both stops exist, digits before them, no overflow of an `int`. */
  predicate WellFormed(s: string) {
    && |PREFIX| <= |s|
    && var dot := Find(s, |PREFIX|, false);
    && dot < |s| && Digits(s, |PREFIX|, dot) && Number(s, |PREFIX|, dot) < 0x8000
    && var end := Find(s, dot + 1, true);
    && end < |s| && Digits(s, dot + 1, end) && Number(s, dot + 1, end) < 0x8000_0000
  }

  function Version(s: string): nat
    requires WellFormed(s)
  {
    var dot := Find(s, |PREFIX|, false);
    Pack(Number(s, |PREFIX|, dot), Number(s, dot + 1, Find(s, dot + 1, true)))
  }

  lemma {:induction false} FindStops(s: string, from: nat, minorPart: bool)
    requires from <= |s|
    ensures forall i :: from <= i < Find(s, from, minorPart) ==> !Stops(s[i], minorPart)
    ensures Find(s, from, minorPart) < |s| ==> Stops(s[Find(s, from, minorPart)], minorPart)
    decreases |s| - from
  {
    if from < |s| && !Stops(s[from], minorPart) {
      FindStops(s, from + 1, minorPart);
    }
  }

  /** The two scanning loops. */
  method GetVersion(versionInfo: string) returns (version: nat)
    requires WellFormed(versionInfo)
    ensures version == Version(versionInfo)
  {
    var highVersion, lowVersion, index := 0, 0, 7;
    ghost var dot := Find(versionInfo, 7, false);
    ghost var end := Find(versionInfo, dot + 1, true);
    FindStops(versionInfo, 7, false);
    FindStops(versionInfo, dot + 1, true);
    while versionInfo[index] != '.'
      invariant 7 <= index <= dot
      invariant highVersion == Number(versionInfo, 7, index)
      decreases dot - index
    {
      highVersion := highVersion * 10;
      highVersion := highVersion + (versionInfo[index] as int - '0' as int);
      index := index + 1;
    }
    index := index + 1;
    while versionInfo[index] != ' ' && versionInfo[index] != NUL
      invariant dot + 1 <= index <= end
      invariant lowVersion == Number(versionInfo, dot + 1, index)
      decreases end - index
    {
      lowVersion := lowVersion * 10;
      lowVersion := lowVersion + (versionInfo[index] as int - '0' as int);
      index := index + 1;
    }
    return BitOr(highVersion * 0x10000, lowVersion);
  }

  /** A printed number is read back, wherever it stands in the string. */
  lemma {:induction false} NumberOfDecimal(s: string, from: nat, n: nat)
    requires from + |Decimal(n)| <= |s| && s[from..from + |Decimal(n)|] == Decimal(n)
    ensures Digits(s, from, from + |Decimal(n)|) && Number(s, from, from + |Decimal(n)|) == n
  {
    var to := from + |Decimal(n)|;
    forall i | from <= i < to ensures IsDigit(s[i]) {
      assert s[i] == s[from..to][i - from];
    }
    assert s[to - 1] == s[from..to][to - 1 - from];
    if n >= 10 {
      assert s[from..to - 1] == s[from..to][..to - 1 - from] == Decimal(n / 10);
      NumberOfDecimal(s, from, n / 10);
    }
  }

  /** Disjoint bit ranges: or is addition. */
  lemma {:induction false} OrIsSum(high: nat, low: nat, k: nat)
    requires low < Pow2(k)
    ensures BitOr(high * Pow2(k), low) == high * Pow2(k) + low
  {
    if k == 0 {
      OrZero(high);
    } else {
      var half := high * Pow2(k - 1);
      assert high * Pow2(k) == 2 * half;
      OrIsSum(high, low / 2, k - 1);
    }
  }

  lemma {:induction false} OrZero(a: nat)
    ensures BitOr(a, 0) == a
  {
    if a != 0 { OrZero(a / 2); }
  }

  lemma PackIsSum(major: nat, minor: nat)
    requires minor < 0x10000
    ensures Pack(major, minor) == major * 0x10000 + minor
  {
    assert Pow2(16) == 0x10000 by {
      assert Pow2(4) == 16;
      assert Pow2(8) == 256;
      assert Pow2(12) == 4096;
    }
    OrIsSum(major, minor, 16);
  }

  lemma {:induction false} FindSkips(s: string, from: nat, to: nat, minorPart: bool)
    requires from <= to < |s| && Stops(s[to], minorPart)
    requires forall i :: from <= i < to ==> !Stops(s[i], minorPart)
    ensures Find(s, from, minorPart) == to
    decreases |s| - from
  {
    if from < to { FindSkips(s, from + 1, to, minorPart); }
  }

  lemma VersionOfParts(s: string, dot: nat, end: nat)
    requires 7 <= dot < end < |s| && s[dot] == '.' && Stops(s[end], true)
    requires Digits(s, 7, dot) && Number(s, 7, dot) < 0x8000
    requires Digits(s, dot + 1, end) && Number(s, dot + 1, end) < 0x10000
    ensures WellFormed(s)
    ensures Version(s) == Number(s, 7, dot) * 0x10000 + Number(s, dot + 1, end)
  {
    FindSkips(s, 7, dot, false);
    FindSkips(s, dot + 1, end, true);
    PackIsSum(Number(s, 7, dot), Number(s, dot + 1, end));
  }

  lemma Slices(s: string, p: string, a: string, b: string, c: string)
    requires s == p + a + "." + b + c && c != []
    ensures var dot := |p| + |a|; var end := dot + 1 + |b|;
            && end < |s| && s[|p|..dot] == a && s[dot] == '.' && s[dot + 1..end] == b && s[end] == c[0]
  {
  }

  /** Parsing inverts printing: `rest` starts with a space or is the terminating NUL. */
  lemma VersionOfPrinted(s: string, major: nat, minor: nat, rest: string)
    requires major < 0x8000 && minor < 0x10000 && rest != [] && (rest[0] == ' ' || rest[0] == NUL)
    requires s == PREFIX + Decimal(major) + "." + Decimal(minor) + rest
    ensures WellFormed(s) && Version(s) == major * 0x10000 + minor
  {
    var a, b := Decimal(major), Decimal(minor);
    Slices(s, PREFIX, a, b, rest);
    PrintedParts(s, major, minor, 7 + |a|, 7 + |a| + 1 + |b|);
  }

  lemma PrintedParts(s: string, major: nat, minor: nat, dot: nat, end: nat)
    requires major < 0x8000 && minor < 0x10000
    requires 7 <= dot < end < |s| && s[dot] == '.' && Stops(s[end], true)
    requires s[7..dot] == Decimal(major) && s[dot + 1..end] == Decimal(minor)
    ensures WellFormed(s) && Version(s) == major * 0x10000 + minor
  {
    NumberOfDecimal(s, 7, major);
    NumberOfDecimal(s, dot + 1, minor);
    VersionOfParts(s, dot, end);
  }

  /** Devices are reference counted when this holds of the packed version. */
  predicate AboveOneOne(version: nat) { version > 0x10000 + 1 }

  /** Images are made with `clCreateImage` when this holds of the packed version. */
  predicate AtLeastOneTwo(version: nat) { version >= 0x10002 }

  /** Both run-time tests mean "version 1.2 or later", compared as pairs. */
  lemma TestsMeanOneTwo(major: nat, minor: nat)
    requires minor < 0x10000
    ensures AboveOneOne(Pack(major, minor)) <==> (major > 1 || (major == 1 && minor >= 2))
    ensures AboveOneOne(Pack(major, minor)) <==> AtLeastOneTwo(Pack(major, minor))
  {
    PackIsSum(major, minor);
  }
}
