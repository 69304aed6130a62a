/**
 * Device identifiers and the trigger name derived from them.
 *
 * A `dev_t` is modelled as its (major, minor) pair; the bit layout behind
 * MAJOR()/MINOR() belongs to kdev_t.h and is not part of this model.
 * `ledtrig_dev_new` formats the name with
 * `snprintf(name, MAX_NAME_LEN, "dev-%u:%u", MAJOR(dev), MINOR(dev))`, which
 * keeps at most MAX_NAME_LEN - 1 characters (the last byte holds the NUL).
 */
module DevName {
  import opened Wrappers

  datatype DevId = DevId(major: nat, minor: nat)

  /** Size of the `name` buffer of an entry, terminating NUL included. */
  const MaxNameLen: nat := 20

  // ---------------------------------------------------------------------
  // Decimal rendering, as `%u` prints an unsigned value
  // ---------------------------------------------------------------------

  predicate IsDigits(s: string) {
    forall k :: 0 <= k < |s| ==> '0' <= s[k] <= '9'
  }

  function DigitChar(d: nat): (c: char)
    requires d < 10
    ensures '0' <= c <= '9'
    ensures c as int - '0' as int == d
  {
    ('0' as int + d) as char
  }

  /** The decimal digits of `n`, most significant first, without leading zeros. */
  function Digits(n: nat): (r: string)
    ensures |r| >= 1 && IsDigits(r)
    ensures n >= 10 ==> r[0] != '0'
    decreases n
  {
    if n < 10 then [DigitChar(n)] else Digits(n / 10) + [DigitChar(n % 10)]
  }

  /** The value of a string of decimal digits; the inverse of `Digits`. */
  function ParseDecimal(s: string): nat
    requires IsDigits(s)
  {
    if s == [] then 0
    else 10 * ParseDecimal(s[..|s| - 1]) + (s[|s| - 1] as int - '0' as int)
  }

  lemma {:induction false} DecimalRoundTrip(n: nat)
    ensures ParseDecimal(Digits(n)) == n
    decreases n
  {
    if n >= 10 {
      var s := Digits(n);
      assert s[..|s| - 1] == Digits(n / 10);
      DecimalRoundTrip(n / 10);
    }
  }

  function Pow10(k: nat): (r: nat)
    ensures r >= 1
  {
    if k == 0 then 1 else 10 * Pow10(k - 1)
  }

  /** A number below 10^k has at most k digits. */
  lemma {:induction false} DigitsLengthBound(n: nat, k: nat)
    requires 0 < k && n < Pow10(k)
    ensures |Digits(n)| <= k
    decreases k
  {
    if n >= 10 {
      DigitsLengthBound(n / 10, k - 1);
    }
  }

  /** A number of at least 10^(k-1) has at least k digits. */
  lemma {:induction false} DigitsLengthAtLeast(n: nat, k: nat)
    requires 0 < k && Pow10(k - 1) <= n
    ensures |Digits(n)| >= k
    decreases k
  {
    if k > 1 {
      assert Pow10(k - 2) <= n / 10;
      DigitsLengthAtLeast(n / 10, k - 1);
    }
  }

  // ---------------------------------------------------------------------
  // The trigger name
  // ---------------------------------------------------------------------

  /** What `"dev-%u:%u"` expands to before snprintf bounds it. */
  function FullName(d: DevId): string {
    "dev-" + Digits(d.major) + ":" + Digits(d.minor)
  }

  /** The name `ledtrig_dev_new` stores in the entry and registers the trigger under. */
  function TrigName(d: DevId): (r: string)
    ensures |r| <= MaxNameLen - 1
    ensures |r| == if |FullName(d)| <= MaxNameLen - 1 then |FullName(d)| else MaxNameLen - 1
    ensures r == FullName(d)[..|r|]
  {
    var full := FullName(d);
    if |full| <= MaxNameLen - 1 then full else full[..MaxNameLen - 1]
  }

  /** The index of the first `c` in `s`, if any. */
  function IndexOf(s: string, c: char): (r: Option<nat>)
    ensures r.Some? ==> r.value < |s| && s[r.value] == c
    ensures r.Some? ==> forall k :: 0 <= k < r.value ==> s[k] != c
    ensures r.None? ==> forall k :: 0 <= k < |s| ==> s[k] != c
  {
    if s == [] then None
    else if s[0] == c then Some(0)
    else match IndexOf(s[1..], c)
      case None => None
      case Some(k) => Some(k + 1)
  }

  /** Reads a device back from a trigger name of the form `dev-<major>:<minor>`. */
  function ParseName(s: string): Option<DevId> {
    if |s| < 4 || s[..4] != "dev-" then None
    else
      var rest := s[4..];
      match IndexOf(rest, ':')
      case None => None
      case Some(i) =>
        var a, b := rest[..i], rest[i + 1..];
        if a != [] && b != [] && IsDigits(a) && IsDigits(b)
        then Some(DevId(ParseDecimal(a), ParseDecimal(b)))
        else None
  }

  /** The untruncated name determines the device. */
  lemma FullNameRoundTrip(d: DevId)
    ensures ParseName(FullName(d)) == Some(d)
  {
    var s := FullName(d);
    var da, db := Digits(d.major), Digits(d.minor);
    var rest := s[4..];
    assert s[..4] == "dev-";
    assert rest == da + ":" + db;
    assert rest[|da|] == ':';
    assert forall k :: 0 <= k < |da| ==> rest[k] == da[k];
    assert IndexOf(rest, ':') == Some(|da|);
    assert rest[..|da|] == da;
    assert rest[|da| + 1..] == db;
    DecimalRoundTrip(d.major);
    DecimalRoundTrip(d.minor);
  }

  /**
   * When both numbers have at most seven digits (every major and minor of a
   * 12/20-bit dev_t does), snprintf truncates nothing and the device can be
   * read back from its trigger name.
   */
  lemma NameRoundTrip(d: DevId)
    requires d.major < Pow10(7) && d.minor < Pow10(7)
    ensures TrigName(d) == FullName(d)
    ensures ParseName(TrigName(d)) == Some(d)
  {
    DigitsLengthBound(d.major, 7);
    DigitsLengthBound(d.minor, 7);
    FullNameRoundTrip(d);
  }

  /** Distinct devices in that range get distinct trigger names. */
  lemma NamesDistinct(d1: DevId, d2: DevId)
    requires d1.major < Pow10(7) && d1.minor < Pow10(7)
    requires d2.major < Pow10(7) && d2.minor < Pow10(7)
    requires d1 != d2
    ensures TrigName(d1) != TrigName(d2)
  {
    NameRoundTrip(d1);
    NameRoundTrip(d2);
  }

  /** The largest value `%u` prints (UINT_MAX of a 32-bit unsigned int). */
  const UintMax: nat := 0xFFFF_FFFF

  /**
   * A ten-digit major, which a 32-bit `%u` can print, leaves room for only
   * four digits of the minor: two minors whose first four digits agree give
   * the same name.
   */
  lemma TruncationMergesMinors(d1: DevId, d2: DevId)
    requires d1.major == d2.major && Pow10(9) <= d1.major < Pow10(10)
    requires |Digits(d1.minor)| >= 4 && |Digits(d2.minor)| >= 4
    requires Digits(d1.minor)[..4] == Digits(d2.minor)[..4]
    ensures TrigName(d1) == TrigName(d2)
  {
    DigitsLengthAtLeast(d1.major, 10);
    DigitsLengthBound(d1.major, 10);
    var head := "dev-" + Digits(d1.major) + ":";
    assert |head| == 15;
    assert FullName(d1) == head + Digits(d1.minor);
    assert FullName(d2) == head + Digits(d2.minor);
    assert FullName(d1)[..MaxNameLen - 1] == head + Digits(d1.minor)[..4];
    assert FullName(d2)[..MaxNameLen - 1] == head + Digits(d2.minor)[..4];
  }

  /** Devices UINT_MAX:10000 and UINT_MAX:10001 end up with the same name. */
  lemma TruncationExample()
    ensures DevId(UintMax, 10000) != DevId(UintMax, 10001)
    ensures TrigName(DevId(UintMax, 10000)) == TrigName(DevId(UintMax, 10001))
  {
    assert Digits(10000) == "10000";
    assert Digits(10001) == "10001";
    assert Pow10(10) == 10000000000;
    TruncationMergesMinors(DevId(UintMax, 10000), DevId(UintMax, 10001));
  }
}
