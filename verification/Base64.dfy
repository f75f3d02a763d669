/** Base64 as the registry credentials are encoded, against a decoder for section 4 of RFC 4648. */
module Base64 {
  import opened Wrappers

  type Byte = b: nat | b < 256

  const UPPER := "ABCDEFGHIJKLMNOPQRSTUVWXYZ"
  const LOWER := "abcdefghijklmnopqrstuvwxyz"
  const DIGITS := "0123456789"
  const ALPHABET := UPPER + LOWER + DIGITS + "+/"

  /** Table 1 of RFC 4648 read backwards. */
  function ValueOf(c: char): Option<nat> {
    if 'A' <= c <= 'Z' then Some((c - 'A') as nat)
    else if 'a' <= c <= 'z' then Some((c - 'a') as nat + 26)
    else if '0' <= c <= '9' then Some((c - '0') as nat + 52)
    else if c == '+' then Some(62)
    else if c == '/' then Some(63)
    else None
  }

  lemma SignRange(v: nat)
    requires v < 64
    ensures |ALPHABET| == 64
    ensures v < 26 ==> ALPHABET[v] == ('A' as int + v) as char
    ensures 26 <= v < 52 ==> ALPHABET[v] == ('a' as int + v - 26) as char
    ensures 52 <= v < 62 ==> ALPHABET[v] == ('0' as int + v - 52) as char
    ensures v == 62 ==> ALPHABET[v] == '+'
    ensures v == 63 ==> ALPHABET[v] == '/'
  {
    if v < 26 {
      assert ALPHABET[v] == UPPER[v];
    } else if v < 52 {
      assert ALPHABET[v] == LOWER[v - 26];
    } else if v < 62 {
      assert ALPHABET[v] == DIGITS[v - 52];
    } else {
      assert ALPHABET[v] == "+/"[v - 62];
    }
  }

  lemma SignInverted(v: nat)
    requires v < 64
    ensures |ALPHABET| == 64 && ValueOf(ALPHABET[v]) == Some(v)
  {
    SignRange(v);
  }

  lemma ValueInverted(c: char)
    requires ValueOf(c).Some?
    ensures ValueOf(c).value < 64 && |ALPHABET| == 64 && ALPHABET[ValueOf(c).value] == c
  {
    var v := ValueOf(c).value;
    SignRange(v);
    hide ALPHABET;
    if 'A' <= c <= 'Z' {
      assert v < 26 && ('A' as int + v) as char == c;
    } else if 'a' <= c <= 'z' {
      assert 26 <= v < 52 && ('a' as int + v - 26) as char == c;
    } else if '0' <= c <= '9' {
      assert 52 <= v < 62 && ('0' as int + v - 52) as char == c;
    }
  }

  // ---- Groups of 24 bits ----

  function Bits(a: Byte, b: Byte, c: Byte): (n: nat)
    ensures n < 0x100_0000
  {
    a * 0x1_0000 + b * 0x100 + c
  }

  /** The k-th sextet of 24 bits, the highest first. */
  function Sextet(n: nat, k: nat): (v: nat)
    requires k < 4
    ensures v < 64
  {
    (if k == 0 then n / 0x4_0000 else if k == 1 then n / 0x1000 else if k == 2 then n / 0x40 else n) % 64
  }

  function SignAt(n: nat, k: nat): char
    requires k < 4
  {
    SignRange(0);
    ALPHABET[Sextet(n, k)]
  }

  /** Four sextets, written as one number, are found again. */
  lemma SextetsFound(p: nat, q: nat, r: nat, t: nat)
    requires p < 64 && q < 64 && r < 64 && t < 64
    ensures var n := ((p * 64 + q) * 64 + r) * 64 + t;
            Sextet(n, 0) == p && Sextet(n, 1) == q && Sextet(n, 2) == r && Sextet(n, 3) == t
  {
    var pq := p * 64 + q;
    var pqr := pq * 64 + r;
    var n := pqr * 64 + t;
    assert n / 0x40 == pqr && n / 0x1000 == pq && n / 0x4_0000 == p;
    assert n % 64 == t && pqr % 64 == r && pq % 64 == q && p % 64 == p;
  }

  lemma SextetsOf(a: Byte, b: Byte, c: Byte)
    ensures var n := Bits(a, b, c);
            && Sextet(n, 0) == a / 4 && Sextet(n, 1) == a % 4 * 16 + b / 16
            && Sextet(n, 2) == b % 16 * 4 + c / 64 && Sextet(n, 3) == c % 64
  {
    hide Sextet;
    SextetsFound(a / 4, a % 4 * 16 + b / 16, b % 16 * 4 + c / 64, c % 64);
    assert a == a / 4 * 4 + a % 4 && b == b / 16 * 16 + b % 16 && c == c / 64 * 64 + c % 64;
  }

  // ---- The encoding ----

  function Encoded(s: seq<Byte>): string {
    if s == [] then ""
    else
      var n := Bits(s[0], if |s| > 1 then s[1] else 0, if |s| > 2 then s[2] else 0);
      [SignAt(n, 0), SignAt(n, 1), if |s| > 1 then SignAt(n, 2) else '=', if |s| > 2 then SignAt(n, 3) else '=']
      + if |s| > 3 then Encoded(s[3..]) else ""
  }

  /** The three bytes of four sextets. */
  function Bytes(v: seq<nat>): (s: seq<Byte>)
    requires |v| == 4 && forall k | 0 <= k < 4 :: v[k] < 64
    ensures |s| == 3
  {
    [v[0] * 4 + v[1] / 16, v[1] % 16 * 16 + v[2] / 4, v[2] % 4 * 64 + v[3]]
  }

  /** The sextets of the first four characters, of which the last `pads` are padding. */
  function Sextets(t: string, pads: nat): (v: Option<seq<nat>>)
    requires |t| >= 4 && pads <= 2
    ensures v.Some? ==> |v.value| == 4
  {
    var v := [ValueOf(t[0]), ValueOf(t[1]),
              if pads < 2 then ValueOf(t[2]) else if t[2] == '=' then Some(0) else None,
              if pads < 1 then ValueOf(t[3]) else if t[3] == '=' then Some(0) else None];
    if v[0].Some? && v[1].Some? && v[2].Some? && v[3].Some? then Some([v[0].value, v[1].value, v[2].value, v[3].value]) else None
  }

  function Pads(t: string): nat
    requires |t| >= 4
  {
    if |t| > 4 || t[3] != '=' then 0 else if t[2] != '=' then 1 else 2
  }

  /** The bytes of the first four characters; pad bits must be zero. */
  function DecodeGroup(t: string): Option<seq<Byte>>
    requires |t| >= 4
  {
    match Sextets(t, Pads(t))
    case None => None
    case Some(v) =>
      if !(forall k | 0 <= k < 4 :: v[k] < 64) then None
      else if forall k | 3 - Pads(t) <= k < 3 :: Bytes(v)[k] == 0 then Some(Bytes(v)[..3 - Pads(t)])
      else None
  }

  /** Section 4 of RFC 4648: groups of four characters, padding only in the last. */
  function Decode(t: string): Option<seq<Byte>> {
    if t == "" then Some([])
    else if |t| < 4 then None
    else match DecodeGroup(t)
      case None => None
      case Some(group) => if Decode(t[4..]).None? then None else Some(group + Decode(t[4..]).value)
  }

  /** The first one to three bytes, a missing one zero. */
  function ByteAt(s: seq<Byte>, k: nat): Byte {
    if k < |s| then s[k] else 0
  }

  function GroupOf(s: seq<Byte>): seq<nat> {
    var n := Bits(ByteAt(s, 0), ByteAt(s, 1), ByteAt(s, 2));
    [Sextet(n, 0), Sextet(n, 1), Sextet(n, 2), Sextet(n, 3)]
  }

  lemma EncodedPrefix(s: seq<Byte>)
    requires s != []
    ensures |Encoded(s)| >= 4 && Encoded(s)[4..] == (if |s| > 3 then Encoded(s[3..]) else "") && (|Encoded(s)| > 4 <==> |s| > 3)
  {
    hide SignAt, Bits;
    if |s| > 3 {
      assert Encoded(s[3..]) != "";
    }
  }

  lemma NoPaddingSign(n: nat, k: nat)
    requires k < 4
    ensures SignAt(n, k) != '=' && ValueOf(SignAt(n, k)) == Some(Sextet(n, k))
  {
    hide Sextet;
    SignInverted(Sextet(n, k));
  }

  lemma EncodedSigns(s: seq<Byte>)
    requires s != []
    ensures var t, n := Encoded(s), Bits(ByteAt(s, 0), ByteAt(s, 1), ByteAt(s, 2));
            && |t| >= 4 && (|t| > 4 <==> |s| > 3) && t[0] == SignAt(n, 0) && t[1] == SignAt(n, 1)
            && t[2] == (if |s| > 1 then SignAt(n, 2) else '=') && t[3] == if |s| > 2 then SignAt(n, 3) else '='
  {
    EncodedPrefix(s);
    hide SignAt, Bits;
  }

  function PadsFor(n: nat): nat {
    if n == 1 then 2 else if n == 2 then 1 else 0
  }

  lemma GroupDecodes(s: seq<Byte>)
    requires s != []
    ensures |Encoded(s)| >= 4 && Pads(Encoded(s)) == PadsFor(|s|)
    ensures Sextets(Encoded(s), PadsFor(|s|)) == Some(GroupOf(s))
  {
    var n := Bits(ByteAt(s, 0), ByteAt(s, 1), ByteAt(s, 2));
    EncodedSigns(s);
    MissingAreZero(s);
    hide SignAt, Sextet, Bits, ValueOf, Encoded, ByteAt;
    SignsDecode(Encoded(s), n, PadsFor(|s|));
  }

  lemma SignsDecode(t: string, n: nat, pads: nat)
    requires |t| >= 4 && pads <= 2 && (|t| > 4 ==> pads == 0) && t[0] == SignAt(n, 0) && t[1] == SignAt(n, 1)
    requires t[2] == (if pads < 2 then SignAt(n, 2) else '=') && t[3] == if pads < 1 then SignAt(n, 3) else '='
    requires (pads == 2 ==> Sextet(n, 2) == 0) && (pads >= 1 ==> Sextet(n, 3) == 0)
    ensures Pads(t) == pads && Sextets(t, pads) == Some([Sextet(n, 0), Sextet(n, 1), Sextet(n, 2), Sextet(n, 3)])
  {
    NoPaddingSign(n, 0);
    NoPaddingSign(n, 1);
    NoPaddingSign(n, 2);
    NoPaddingSign(n, 3);
    hide SignAt, Sextet, ValueOf;
  }

  lemma MissingAreZero(s: seq<Byte>)
    requires s != []
    ensures |s| == 1 ==> GroupOf(s)[2] == 0
    ensures |s| <= 2 ==> GroupOf(s)[3] == 0
  {
    hide Sextet, Bits;
    SextetsOf(ByteAt(s, 0), ByteAt(s, 1), ByteAt(s, 2));
  }

  lemma Joined(x: nat, y: nat)
    ensures y < 16 ==> (x * 16 + y) / 16 == x && (x * 16 + y) % 16 == y
    ensures y < 4 ==> (x * 4 + y) / 4 == x && (x * 4 + y) % 4 == y
    ensures x * 64 + y < 256 && y < 64 ==> x < 4
  {
  }

  lemma BytesJoined(a: Byte, b: Byte, c: Byte)
    ensures Bytes([a / 4, a % 4 * 16 + b / 16, b % 16 * 4 + c / 64, c % 64]) == [a, b, c]
  {
    Joined(a % 4, b / 16);
    Joined(b % 16, c / 64);
    var q, r := a % 4 * 16 + b / 16, b % 16 * 4 + c / 64;
    assert a / 4 * 4 + q / 16 == a;
    assert q % 16 * 16 + r / 4 == b;
    assert r % 4 * 64 + c % 64 == c;
  }

  lemma BytesFound(s: seq<Byte>)
    ensures (forall k | 0 <= k < 4 :: GroupOf(s)[k] < 64) && Bytes(GroupOf(s)) == [ByteAt(s, 0), ByteAt(s, 1), ByteAt(s, 2)]
  {
    var a, b, c := ByteAt(s, 0), ByteAt(s, 1), ByteAt(s, 2);
    hide Sextet, Bits, ByteAt, Bytes;
    SextetsOf(a, b, c);
    BytesJoined(a, b, c);
    assert GroupOf(s) == [a / 4, a % 4 * 16 + b / 16, b % 16 * 4 + c / 64, c % 64];
  }

  function FirstGroup(s: seq<Byte>): seq<Byte> {
    if |s| > 3 then s[..3] else s
  }

  lemma FirstBytes(s: seq<Byte>)
    requires s != []
    ensures FirstGroup(s) == [ByteAt(s, 0), ByteAt(s, 1), ByteAt(s, 2)][..3 - PadsFor(|s|)]
    ensures forall k | 3 - PadsFor(|s|) <= k < 3 :: ByteAt(s, k) == 0
  {
  }

  lemma DecodedGroup(t: string, v: seq<nat>)
    requires |t| >= 4 && Sextets(t, Pads(t)) == Some(v) && |v| == 4 && forall k | 0 <= k < 4 :: v[k] < 64
    requires forall k | 3 - Pads(t) <= k < 3 :: Bytes(v)[k] == 0
    ensures DecodeGroup(t) == Some(Bytes(v)[..3 - Pads(t)])
  {
    hide Sextets, Bytes, Pads;
  }

  lemma GroupInverts(s: seq<Byte>)
    requires s != []
    ensures |Encoded(s)| >= 4 && DecodeGroup(Encoded(s)) == Some(FirstGroup(s))
  {
    hide Sextets, Bytes, GroupOf, Encoded, Pads, ByteAt, DecodeGroup, FirstGroup;
    GroupDecodes(s);
    BytesFound(s);
    FirstBytes(s);
    assert forall k | 3 - PadsFor(|s|) <= k < 3 :: Bytes(GroupOf(s))[k] == ByteAt(s, k);
    DecodedGroup(Encoded(s), GroupOf(s));
  }

  /** Decoding inverts encoding. */
  lemma {:induction false} DecodeInverts(s: seq<Byte>)
    ensures Decode(Encoded(s)) == Some(s)
  {
    if s == [] {
    } else {
      hide DecodeGroup;
      EncodedPrefix(s);
      GroupInverts(s);
      if |s| > 3 {
        DecodeInverts(s[3..]);
        assert s == s[..3] + s[3..];
      } else {
        assert Decode("") == Some([]);
        assert s == s + [];
      }
      hide Encoded;
    }
  }

  // ---- Nothing else decodes ----

  lemma SextetsTell(t: string, pads: nat)
    requires |t| >= 4 && pads <= 2 && Sextets(t, pads).Some?
    ensures var v := Sextets(t, pads).value;
            && |v| == 4 && (forall k | 0 <= k < 4 :: v[k] < 64) && |ALPHABET| == 64
            && t[0] == ALPHABET[v[0]] && t[1] == ALPHABET[v[1]]
            && (if pads < 2 then t[2] == ALPHABET[v[2]] else t[2] == '=' && v[2] == 0)
            && if pads < 1 then t[3] == ALPHABET[v[3]] else t[3] == '=' && v[3] == 0
  {
    forall c | ValueOf(c).Some? ensures ValueOf(c).value < 64 && |ALPHABET| == 64 && ALPHABET[ValueOf(c).value] == c {
      ValueInverted(c);
    }
    SignRange(0);
    hide ValueOf, ALPHABET;
  }

  lemma BytesSplit(v: seq<nat>)
    requires |v| == 4 && forall k | 0 <= k < 4 :: v[k] < 64
    ensures var s := Bytes(v); s[0] / 4 == v[0] && s[0] % 4 * 16 + s[1] / 16 == v[1] && s[1] % 16 * 4 + s[2] / 64 == v[2] && s[2] % 64 == v[3]
  {
    Joined(v[0], v[1] / 16);
    Joined(v[1] % 16, v[2] / 4);
    Joined64(v[2] % 4, v[3]);
  }

  lemma Joined64(x: nat, y: nat)
    requires y < 64
    ensures (x * 64 + y) / 64 == x && (x * 64 + y) % 64 == y
  {
  }

  lemma GroupTells(t: string)
    requires |t| >= 4 && DecodeGroup(t).Some?
    ensures Sextets(t, Pads(t)).Some?
    ensures var v := Sextets(t, Pads(t)).value;
            && |v| == 4 && (forall k | 0 <= k < 4 :: v[k] < 64)
            && DecodeGroup(t).value == Bytes(v)[..3 - Pads(t)] && forall k | 3 - Pads(t) <= k < 3 :: Bytes(v)[k] == 0
  {
    hide Sextets, Bytes, Pads;
  }

  /** The characters of a group that decodes are those its bytes are encoded to. */
  lemma GroupEncodes(t: string, s: seq<Byte>)
    requires s != [] && |t| >= 4 && Pads(t) == PadsFor(|s|) && DecodeGroup(t) == Some(FirstGroup(s))
    ensures |Encoded(s)| >= 4 && t[..4] == Encoded(s)[..4]
  {
    EncodedSigns(s);
    GroupTells(t);
    var v := Sextets(t, Pads(t)).value;
    SextetsTell(t, Pads(t));
    hide *;
    BytesAre(s, Bytes(v));
    SextetsAgree(s, v);
    SameSigns(t, s, v);
  }

  lemma BytesAre(s: seq<Byte>, bytes: seq<Byte>)
    requires s != [] && |bytes| == 3 && bytes[..3 - PadsFor(|s|)] == FirstGroup(s)
    requires forall k | 3 - PadsFor(|s|) <= k < 3 :: bytes[k] == 0
    ensures bytes == [ByteAt(s, 0), ByteAt(s, 1), ByteAt(s, 2)]
  {
    forall k | 0 <= k < 3 ensures bytes[k] == ByteAt(s, k) {
      assert k < 3 - PadsFor(|s|) ==> bytes[k] == bytes[..3 - PadsFor(|s|)][k];
    }
  }

  lemma SextetsAgree(s: seq<Byte>, v: seq<nat>)
    requires |v| == 4 && (forall k | 0 <= k < 4 :: v[k] < 64) && Bytes(v) == [ByteAt(s, 0), ByteAt(s, 1), ByteAt(s, 2)]
    ensures forall k | 0 <= k < 4 :: Sextet(Bits(ByteAt(s, 0), ByteAt(s, 1), ByteAt(s, 2)), k) == v[k]
  {
    hide *;
    BytesSplit(v);
    SextetsOf(ByteAt(s, 0), ByteAt(s, 1), ByteAt(s, 2));
  }

  lemma SameSigns(t: string, s: seq<Byte>, v: seq<nat>)
    requires s != [] && |t| >= 4 && |Encoded(s)| >= 4 && |v| == 4 && |ALPHABET| == 64 && forall k | 0 <= k < 4 :: v[k] < 64
    requires forall k | 0 <= k < 4 :: Sextet(Bits(ByteAt(s, 0), ByteAt(s, 1), ByteAt(s, 2)), k) == v[k]
    requires t[0] == ALPHABET[v[0]] && t[1] == ALPHABET[v[1]]
    requires if PadsFor(|s|) < 2 then t[2] == ALPHABET[v[2]] else t[2] == '='
    requires if PadsFor(|s|) < 1 then t[3] == ALPHABET[v[3]] else t[3] == '='
    ensures t[..4] == Encoded(s)[..4]
  {
    EncodedSigns(s);
    hide Encoded, Sextet, Bits, ByteAt, ALPHABET;
    forall k | 0 <= k < 4 ensures t[k] == Encoded(s)[k] {
    }
  }

  /** What decodes is the encoding of what it decodes to. */
  lemma {:induction false} EncodeInverts(t: string)
    requires Decode(t).Some?
    ensures Encoded(Decode(t).value) == t
  {
    if t == "" {
    } else {
      EncodeInverts(t[4..]);
      GroupTells(t);
      hide DecodeGroup, Encoded, Sextets, Bytes;
      var group, rest := DecodeGroup(t).value, Decode(t[4..]).value;
      var s := Decode(t).value;
      assert s == group + rest;
      if |t| == 4 {
        assert rest == [] && s == group;
      } else {
        assert s[..3] == group && s[3..] == rest;
        RestNonempty(t[4..]);
      }
      GroupEncodes(t, s);
      EncodedPrefix(s);
      assert t == t[..4] + t[4..] && Encoded(s) == Encoded(s)[..4] + Encoded(s)[4..];
    }
  }

  lemma RestNonempty(t: string)
    requires t != "" && Decode(t).Some?
    ensures Decode(t).value != []
  {
    GroupTells(t);
  }

  /** A text decodes to a byte string exactly when it is that string's encoding. */
  lemma DecodesIffEncoded(t: string, s: seq<Byte>)
    ensures Decode(t) == Some(s) <==> t == Encoded(s)
  {
    DecodeInverts(s);
    if Decode(t).Some? {
      EncodeInverts(t);
    }
  }

  // ---- Shape ----

  lemma OneGroupLength(n: nat)
    requires n > 0
    ensures (n + 2) / 3 * 4 == 4 + if n > 3 then (n - 3 + 2) / 3 * 4 else 0
  {
  }

  lemma {:induction false} EncodedLength(s: seq<Byte>)
    ensures |Encoded(s)| == (|s| + 2) / 3 * 4
  {
    if s == [] {
    } else {
      EncodedPrefix(s);
      if |s| > 3 {
        EncodedLength(s[3..]);
      }
      OneGroupLength(|s|);
      assert Encoded([]) == "";
      hide Encoded;
      assert |Encoded(s)| == 4 + |Encoded(s)[4..]|;
    }
  }

  /** How many characters of an encoding are no padding. */
  function Unpadded(n: nat): int {
    (n + 2) / 3 * 4 - (3 - n % 3) % 3
  }

  lemma {:induction false} EncodedCharAt(s: seq<Byte>, k: nat)
    requires k < |Encoded(s)|
    ensures if k < Unpadded(|s|) then Encoded(s)[k] in ALPHABET else Encoded(s)[k] == '='
  {
    if s == [] {
    } else {
      EncodedPrefix(s);
      EncodedLength(s);
      EncodedSigns(s);
      InAlphabet(Bits(ByteAt(s, 0), ByteAt(s, 1), ByteAt(s, 2)));
      hide Encoded, Bits, SignAt, ByteAt, ALPHABET;
      if k >= 4 {
        assert Encoded(s)[k] == Encoded(s)[4..][k - 4];
        EncodedCharAt(s[3..], k - 4);
        OneGroupLess(|s|);
      } else {
        FirstGroupPadding(|s|, k);
      }
    }
  }

  lemma OneGroupLess(n: nat)
    requires n > 3
    ensures Unpadded(n) == Unpadded(n - 3) + 4
  {
  }

  lemma FirstGroupPadding(n: nat, k: nat)
    requires n > 0 && k < 4
    ensures k < Unpadded(n) <==> k < 2 || (k == 2 && n > 1) || (k == 3 && n > 2)
  {
  }

  /** Four characters for every three bytes begun; the padding is decided by the remainder and
      stands at the end; everything before it is of the alphabet. */
  lemma EncodedShape(s: seq<Byte>)
    ensures |Encoded(s)| == (|s| + 2) / 3 * 4 == Unpadded(|s|) + if |s| % 3 == 0 then 0 else 3 - |s| % 3
    ensures forall k | 0 <= k < |Encoded(s)| :: if k < Unpadded(|s|) then Encoded(s)[k] in ALPHABET else Encoded(s)[k] == '='
  {
    EncodedLength(s);
    hide Encoded, ALPHABET, Unpadded;
    forall k | 0 <= k < |Encoded(s)| ensures if k < Unpadded(|s|) then Encoded(s)[k] in ALPHABET else Encoded(s)[k] == '=' {
      EncodedCharAt(s, k);
    }
    PaddingOf(|s|);
  }

  lemma PaddingOf(n: nat)
    ensures (n + 2) / 3 * 4 == Unpadded(n) + if n % 3 == 0 then 0 else 3 - n % 3
  {
  }

  lemma InAlphabet(n: nat)
    ensures forall k | 0 <= k < 4 :: SignAt(n, k) in ALPHABET
  {
    SignRange(0);
    hide Sextet;
  }

  /** What is left to encode from position i on. */
  function From(input: seq<Byte>, i: nat): seq<Byte> {
    if i < |input| then input[i..] else []
  }

  lemma EncodedFrom(input: seq<Byte>, i: nat, n: nat)
    requires i < |input| && n == Bits(ByteAt(input, i), ByteAt(input, i + 1), ByteAt(input, i + 2)) && |ALPHABET| == 64
    ensures Encoded(From(input, i))
         == [ALPHABET[n / 0x4_0000 % 64], ALPHABET[n / 0x1000 % 64],
             if i + 1 < |input| then ALPHABET[n / 0x40 % 64] else '=', if i + 2 < |input| then ALPHABET[n % 64] else '=']
            + Encoded(From(input, i + 3))
  {
    var s := From(input, i);
    EncodedPrefix(s);
    EncodedSigns(s);
    assert ByteAt(s, 0) == ByteAt(input, i) && ByteAt(s, 1) == ByteAt(input, i + 1) && ByteAt(s, 2) == ByteAt(input, i + 2);
    assert From(input, i + 3) == if |s| > 3 then s[3..] else [];
    assert Encoded([]) == "";
    hide Encoded, Bits, ByteAt, ALPHABET, From;
    assert Encoded(s) == Encoded(s)[..4] + Encoded(s)[4..];
  }

  /** The 24 bits starting at position i, missing bytes zero. */
  method BitsAt(input: seq<Byte>, i: nat) returns (n: nat)
    requires i < |input|
    ensures n == Bits(ByteAt(input, i), ByteAt(input, i + 1), ByteAt(input, i + 2))
  {
    n := input[i] as nat * 0x1_0000;
    if i + 1 < |input| {
      n := n + input[i + 1] as nat * 0x100;
    }
    if i + 2 < |input| {
      n := n + input[i + 2];
    }
  }

  /** In steps of three bytes, appending four characters each. */
  method EncodeBase64(input: seq<Byte>) returns (out: string)
    ensures out == Encoded(input)
  {
    SignRange(0);
    out := "";
    var i := 0;
    assert From(input, 0) == input && Encoded([]) == "";
    assert forall j | j >= |input| :: From(input, j) == [];
    hide Encoded, ALPHABET, From;
    while i < |input|
      invariant 0 <= i && out + Encoded(From(input, i)) == Encoded(input)
      decreases |input| - i
    {
      var n := BitsAt(input, i);
      EncodedFrom(input, i, n);
      var third := if i + 1 < |input| then ALPHABET[n / 0x40 % 64] else '=';
      var fourth := if i + 2 < |input| then ALPHABET[n % 64] else '=';
      var group := [ALPHABET[n / 0x4_0000 % 64], ALPHABET[n / 0x1000 % 64], third, fourth];
      assert out + (group + Encoded(From(input, i + 3))) == (out + group) + Encoded(From(input, i + 3));
      out := out + group;
      i := i + 3;
    }
  }
}
