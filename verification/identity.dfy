/** How a project's numeric identity and account names are derived from its
    id (salvus/scripts/bup_storage.py, `uid` and the `Project` constructor).
    SHA-512 itself is not modelled: the hex digest is an input. */
module Identity {
  import opened Text

  /** Added to small hash values, to keep clear of system ids such as 65534. */
  const UID_OFFSET: nat := 65537
  /** 2^31 - 1, the largest uid FUSE and node accept. */
  const MAX_UID: nat := 0x7fff_ffff
  /** How many leading digits of the digest the uid is made from. */
  const PREFIX_DIGITS: nat := 8

  // ----------------------------------------------------------- hexadecimal

  predicate IsHexDigit(c: char) {
    '0' <= c <= '9' || 'a' <= c <= 'f' || 'A' <= c <= 'F'
  }

  predicate AllHex(s: string) {
    forall j :: 0 <= j < |s| ==> IsHexDigit(s[j])
  }

  function HexDigitValue(c: char): (v: nat)
    requires IsHexDigit(c)
    ensures v < 16
  {
    if '0' <= c <= '9' then c as int - '0' as int
    else if 'a' <= c <= 'f' then c as int - 'a' as int + 10
    else c as int - 'A' as int + 10
  }

  /** The lower-case digit `hexdigest()` writes for `v`. */
  function HexDigit(v: nat): (c: char)
    requires v < 16
    ensures IsHexDigit(c) && HexDigitValue(c) == v
  {
    if v < 10 then ('0' as int + v) as char else ('a' as int + v - 10) as char
  }

  function Pow16(k: nat): (p: nat)
    ensures p >= 1
  {
    if k == 0 then 1 else 16 * Pow16(k - 1)
  }

  lemma Pow16Prefix()
    ensures Pow16(PREFIX_DIGITS) == 0x1_0000_0000
  {
    assert Pow16(2) == 256;
    assert Pow16(4) == 65536 by { assert Pow16(4) == 16 * (16 * Pow16(2)); }
    assert Pow16(8) == 0x1_0000_0000 by {
      assert Pow16(6) == 16 * (16 * Pow16(4));
      assert Pow16(8) == 16 * (16 * Pow16(6));
    }
  }

  /** `int(s, 16)` for a string of hex digits; `k` digits never reach 16^k. */
  function HexValue(s: string): (n: nat)
    requires AllHex(s)
    ensures n < Pow16(|s|)
  {
    if |s| == 0 then 0
    else
      var high := HexValue(s[..|s| - 1]);
      var low := HexDigitValue(s[|s| - 1]);
      assert high * 16 + low < Pow16(|s|) by {
        assert high + 1 <= Pow16(|s| - 1);
        assert (high + 1) * 16 <= Pow16(|s| - 1) * 16;
      }
      high * 16 + low
  }

  /** `n` written with exactly `k` lower-case hex digits, zero padded. */
  function ToHex(n: nat, k: nat): (s: string)
    requires n < Pow16(k)
    ensures |s| == k && AllHex(s)
  {
    if k == 0 then ""
    else ToHex(n / 16, k - 1) + [HexDigit(n % 16)]
  }

  /** Reading back `k` digits written by `ToHex` gives the number. */
  lemma {:induction false} HexRoundTrip(n: nat, k: nat)
    requires n < Pow16(k)
    ensures HexValue(ToHex(n, k)) == n
  {
    if k > 0 {
      HexRoundTrip(n / 16, k - 1);
      var s := ToHex(n, k);
      assert s[..|s| - 1] == ToHex(n / 16, k - 1);
    }
  }

  // ------------------------------------------------------------------- uid

  /** What `hashlib.sha512(...).hexdigest()` returns: 128 lower-case hex digits. */
  predicate IsSha512Hex(d: string) {
    |d| == 128 && forall j :: 0 <= j < |d| ==> '0' <= d[j] <= '9' || 'a' <= d[j] <= 'f'
  }

  /** `uid(project_id)`, given the SHA-512 hex digest of the id. It is always
      a usable uid: never below the offset and never above 2^31 - 1. */
  function Uid(digest: string): (u: nat)
    requires IsSha512Hex(digest)
    ensures UID_OFFSET <= u <= MAX_UID
  {
    var prefix := digest[..PREFIX_DIGITS];
    assert AllHex(prefix);
    Pow16Prefix();
    var half := HexValue(prefix) / 2;
    if half > UID_OFFSET then half else half + UID_OFFSET
  }

  /** The uid is fixed by the first eight digits of the digest: any digest
      starting with the eight-digit spelling of `n` maps to `n / 2` when that
      exceeds the offset, and to `n / 2 + 65537` otherwise. */
  lemma UidOfPrefix(n: nat, digest: string)
    requires n < 0x1_0000_0000
    requires IsSha512Hex(digest) && digest[..PREFIX_DIGITS] == ToHex(n, PREFIX_DIGITS)
    ensures n / 2 > UID_OFFSET ==> Uid(digest) == n / 2
    ensures n / 2 <= UID_OFFSET ==> Uid(digest) == n / 2 + UID_OFFSET
  {
    Pow16Prefix();
    HexRoundTrip(n, PREFIX_DIGITS);
  }

  /** Two digests that agree on their first eight digits give the same uid,
      whatever follows. */
  lemma UidDependsOnlyOnPrefix(d1: string, d2: string)
    requires IsSha512Hex(d1) && IsSha512Hex(d2)
    requires d1[..PREFIX_DIGITS] == d2[..PREFIX_DIGITS]
    ensures Uid(d1) == Uid(d2)
  {
  }

  /** The fold that lifts small values above the offset makes distinct
      prefixes share a uid: 2 and 131076 both give 65538. */
  lemma UidFoldCollides(d1: string, d2: string)
    requires IsSha512Hex(d1) && d1[..PREFIX_DIGITS] == ToHex(2, PREFIX_DIGITS)
    requires IsSha512Hex(d2) && d2[..PREFIX_DIGITS] == ToHex(131076, PREFIX_DIGITS)
    ensures Uid(d1) == Uid(d2) == 65538
  {
    Pow16Prefix();
    UidOfPrefix(2, d1);
    UidOfPrefix(131076, d2);
  }

  // ------------------------------------------------------ uuid and names

  /** `project_id.replace('-', '')`: the account and group name. */
  function RemoveDashes(s: string): (r: string)
    ensures '-' !in r
    ensures forall c :: c in r <==> c in s && c != '-'
    ensures |r| <= |s|
  {
    if |s| == 0 then ""
    else (if s[0] == '-' then "" else [s[0]]) + RemoveDashes(s[1..])
  }

  lemma {:induction false} RemoveDashesConcat(a: string, b: string)
    ensures RemoveDashes(a + b) == RemoveDashes(a) + RemoveDashes(b)
  {
    if |a| > 0 {
      assert (a + b)[0] == a[0] && (a + b)[1..] == a[1..] + b;
      RemoveDashesConcat(a[1..], b);
    } else {
      assert a + b == b;
    }
  }

  /** What the constructor accepts as a project id: `uuid.UUID` reads 32 hex
      digits once dashes are removed, and the version is 4 only when the
      variant is the RFC 4122 one (thirteenth digit 4, seventeenth 8, 9, a or b). */
  predicate IsV4Uuid(id: string) {
    var h := RemoveDashes(id);
    |h| == 32 && AllHex(h) && h[12] == '4' && h[16] in "89abAB"
  }

  /** The account name of a project written in the canonical 8-4-4-4-12 form
      is its 32 hex digits, in order. */
  lemma UsernameOfCanonicalId(g1: string, g2: string, g3: string, g4: string, g5: string)
    requires AllHex(g1) && AllHex(g2) && AllHex(g3) && AllHex(g4) && AllHex(g5)
    ensures RemoveDashes(g1 + "-" + g2 + "-" + g3 + "-" + g4 + "-" + g5) == g1 + g2 + g3 + g4 + g5
  {
    NoDashesKept(g1);
    var s2 := g1 + "-" + g2;
    DashThenGroup(g1, g2);
    var s3 := s2 + "-" + g3;
    DashThenGroup(s2, g3);
    var s4 := s3 + "-" + g4;
    DashThenGroup(s3, g4);
    DashThenGroup(s4, g5);
  }

  /** Removing dashes from `a + "-" + g`, where `g` is a group of hex digits. */
  lemma DashThenGroup(a: string, g: string)
    requires AllHex(g)
    ensures RemoveDashes(a + "-" + g) == RemoveDashes(a) + g
  {
    var d := a + "-";
    assert a + "-" + g == d + g;
    RemoveDashesConcat(d, g);
    RemoveDashesConcat(a, "-");
    DashRemoved();
    NoDashesKept(g);
  }

  lemma DashRemoved()
    ensures RemoveDashes("-") == ""
  {
    assert "-"[1..] == "";
  }

  lemma {:induction false} NoDashesKept(s: string)
    requires AllHex(s)
    ensures RemoveDashes(s) == s
  {
    if |s| > 0 {
      assert s[0] != '-' && AllHex(s[1..]);
      NoDashesKept(s[1..]);
      assert [s[0]] + s[1..] == s;
    }
  }
}
