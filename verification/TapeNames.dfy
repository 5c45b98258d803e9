/** Names of the cartridges of a chain (internal/domain/span.go:289-310). */
module TapeNames {
  import opened Domain
  import opened Canonical

  const MAX_INT: nat := 0x7FFF_FFFF_FFFF_FFFF

  predicate IsDigit(c: char) { '0' <= c <= '9' }

  /** Where the trailing digits of a name begin. */
  function DigitsFrom(s: string, i: nat): (r: nat)
    requires i <= |s|
    ensures r <= i
    ensures forall j :: r <= j < i ==> IsDigit(s[j])
    ensures r > 0 ==> !IsDigit(s[r - 1])
  {
    if i > 0 && IsDigit(s[i - 1]) then DigitsFrom(s, i - 1) else i
  }

  function ZeroPadded(s: string, width: nat): (r: string)
    ensures |r| >= |s| && r[|r| - |s|..] == s
    ensures forall j :: 0 <= j < |r| - |s| ==> r[j] == '0'
  {
    if |s| < width then seq(width - |s|, _ => '0') + s else s
  }

  /** One more, as a Go int counts: behind the largest comes the smallest. */
  function Succ(n: nat): int
    requires n <= MAX_INT
  {
    if n == MAX_INT then 0 - (MAX_INT + 1) else n + 1
  }

  /** A number printed to a width; zeros go behind the sign. */
  function Printed(n: int, width: nat): string {
    if n < 0 then "-" + ZeroPadded(DecNat(-n), if width > 0 then width - 1 else 0) else ZeroPadded(DecNat(n), width)
  }

  /** The next number with the width kept, or -002 behind the job name (behind the current
      name if the job has none). A number that overflows counts as no number. */
  function NextTapeName(job: string, current: string): (r: string)
    ensures r != ""
  {
    var i := DigitsFrom(current, |current|);
    if i < |current| && ValueOf(current[i..]) <= MAX_INT
    then current[..i] + Printed(Succ(ValueOf(current[i..])), |current| - i)
    else (if job == "" then current else job) + "-002"
  }

  lemma {:induction false} LeadingZeros(zeros: string, s: string)
    requires forall j :: 0 <= j < |zeros| ==> zeros[j] == '0'
    ensures ValueOf(zeros + s) == ValueOf(s)
    decreases |s|, |zeros|
  {
    if s != "" {
      assert (zeros + s)[..|zeros + s| - 1] == zeros + s[..|s| - 1];
      LeadingZeros(zeros, s[..|s| - 1]);
    } else if zeros != "" {
      assert zeros + s == zeros;
      var front := zeros[..|zeros| - 1];
      assert front + "" == front;
      LeadingZeros(front, "");
    }
  }

  // A name that ends in -002 has a number, so the fallback is never taken for it.
  lemma FallbackHasNumber(base: string)
    ensures var s := base + "-002"; s[DigitsFrom(s, |s|)..] == "002"
  {
    hide DigitsFrom;
    var s := base + "-002";
    var i, n := DigitsFrom(s, |s|), |base|;
    assert s[n] == '-' && s[n + 1] == '0' && s[n + 2] == '0' && s[n + 3] == '2';
    assert i > n;
    assert IsDigit(s[n + 1]) && IsDigit(s[n + 2]) && IsDigit(s[n + 3]);
    assert i == n + 1;
    assert s[n + 1..] == "002";
  }

  lemma ValueOfTwo()
    ensures ValueOf("002") == 2
  {
    assert "002"[..2] == "00" && "00"[..1] == "0" && "0"[..0] == "";
  }

  lemma PaddedValue(n: nat, width: nat)
    ensures ValueOf(ZeroPadded(DecNat(n), width)) == n
  {
    hide DecNat, ValueOf, ZeroPadded;
    var s := ZeroPadded(DecNat(n), width);
    var k := |s| - |DecNat(n)|;
    assert s == s[..k] + s[k..];
    LeadingZeros(s[..k], DecNat(n));
    DecNatValue(n);
  }

  lemma OtherEnding(current: string, i: nat, ending: string)
    requires i <= |current| && ending != current[i..]
    ensures current[..i] + ending != current
  {
    assert (current[..i] + ending)[i..] == ending;
  }

  // A number read from digits is not printed the same once it has been counted on.
  lemma CountedOnDiffers(digits: string)
    requires digits != "" && ValueOf(digits) <= MAX_INT && forall j :: 0 <= j < |digits| ==> IsDigit(digits[j])
    ensures Printed(Succ(ValueOf(digits)), |digits|) != digits
  {
    hide DecNat, ValueOf, ZeroPadded;
    var n := Succ(ValueOf(digits));
    if n < 0 {
      assert Printed(n, |digits|)[0] == '-' && IsDigit(digits[0]);
    } else {
      PaddedValue(n, |digits|);
    }
  }

  lemma {:induction false} DecNatDigits(n: nat)
    ensures forall j :: 0 <= j < |DecNat(n)| ==> IsDigit(DecNat(n)[j])
    ensures n > 0 ==> DecNat(n)[0] != '0'
  {
    if n >= 10 {
      DecNatDigits(n / 10);
    }
  }

  // Digits, and the number they are.
  ghost predicate Number(digits: string, n: nat) {
    digits != "" && ValueOf(digits) == n && forall j :: 0 <= j < |digits| ==> IsDigit(digits[j])
  }

  lemma PaddedNumber(n: nat, width: nat)
    requires n > 0
    ensures var s := ZeroPadded(DecNat(n), width);
      Number(s, n) && |s| >= width && (|s| > width ==> s[0] != '0')
  {
    hide DecNat, ValueOf;
    DecNatDigits(n);
    PaddedValue(n, width);
  }

  lemma OnlyEnding(base: string, digits: string)
    requires forall j :: 0 <= j < |digits| ==> IsDigit(digits[j])
    requires base != "" ==> !IsDigit(base[|base| - 1])
    ensures DigitsFrom(base + digits, |base + digits|) == |base|
  {
    hide DigitsFrom;
    var s := base + digits;
    var i := DigitsFrom(s, |s|);
    assert base != "" ==> s[|base| - 1] == base[|base| - 1];
    assert forall j :: |base| <= j < |s| ==> s[j] == digits[j - |base|];
  }

  /** A name that ends in a number is followed by the same name with the next number, in at
      least as many digits; more are taken only where the number needs them. */
  lemma NextNameCounts(job: string, base: string, digits: string, n: nat)
    requires Number(digits, n) && n < 0x7FFF_FFFF_FFFF_FFFF
    requires base != "" ==> !IsDigit(base[|base| - 1])
    ensures var next := NextTapeName(job, base + digits);
      && base <= next && Number(next[|base|..], n + 1)
      && |next| >= |base + digits| && (|next| > |base + digits| ==> next[|base|] != '0')
  {
    hide NextTapeName, DecNat, ZeroPadded, Number, ValueOf, IsDigit;
    PaddedNumber(n + 1, |digits|);
    CountedName(job, base, digits, n);
    EndingOf(base, ZeroPadded(DecNat(n + 1), |digits|));
  }

  lemma EndingOf(base: string, ending: string)
    ensures base <= base + ending && (base + ending)[|base|..] == ending
    ensures ending != "" ==> (base + ending)[|base|] == ending[0]
  {
  }

  lemma CountedName(job: string, base: string, digits: string, n: nat)
    requires Number(digits, n) && n < MAX_INT
    requires base != "" ==> !IsDigit(base[|base| - 1])
    ensures NextTapeName(job, base + digits) == base + ZeroPadded(DecNat(n + 1), |digits|)
  {
    hide DecNat, ValueOf, DigitsFrom, ZeroPadded;
    OnlyEnding(base, digits);
    assert (base + digits)[|base|..] == digits && (base + digits)[..|base|] == base;
  }

  /** A name without a number, or with one that is no Go int, is followed by the name of the
      job, or its own, with -002. */
  lemma NextNameStarts(job: string, base: string, digits: string)
    requires base != "" ==> !IsDigit(base[|base| - 1])
    requires forall j :: 0 <= j < |digits| ==> IsDigit(digits[j])
    requires digits == "" || ValueOf(digits) > 0x7FFF_FFFF_FFFF_FFFF
    ensures NextTapeName(job, base + digits) == (if job == "" then base + digits else job) + "-002"
  {
    hide ValueOf, DigitsFrom;
    OnlyEnding(base, digits);
    assert (base + digits)[|base|..] == digits;
  }

  /** A chain never names a cartridge as its own continuation. */
  lemma NextNameDiffers(job: string, current: string)
    ensures NextTapeName(job, current) != current
  {
    hide DecNat, ValueOf, DigitsFrom, ZeroPadded, Printed;
    var i := DigitsFrom(current, |current|);
    var next := NextTapeName(job, current);
    if i < |current| && ValueOf(current[i..]) <= MAX_INT {
      CountedOnDiffers(current[i..]);
      OtherEnding(current, i, Printed(Succ(ValueOf(current[i..])), |current| - i));
    } else if next == current {
      FallbackHasNumber(if job == "" then current else job);
      ValueOfTwo();
    }
  }
}
