/** The part of a key that decides its slot (src/HashFunc.cpp `hashTagStr`, src/ClusterServerPool.cpp
    `getServer`). */
module HashTags {
  import opened Bytes
  import opened Crc16

  /** `key` is `before`, an opening character, `tag`, a closing character and `after`; they are the first opening
      character and the first closing one behind it, and `tag` is not empty. */
  predicate Tagged(key: string, open: char, close: char, before: string, tag: string, after: string) {
    && key == before + [open] + tag + [close] + after
    && open !in before && close !in tag && tag != []
  }

  /** What is hashed: the tag, or else the whole key. */
  function HashPart(key: string, marks: string): string {
    if |marks| < 2 then key else
    var i := IndexOf(key, marks[0]);
    if i == |key| then key else
    var rest := key[i + 1..];
    var j := IndexOf(rest, marks[1]);
    if j == |rest| || j == 0 then key else rest[..j]
  }

  lemma {:induction false} FirstOne(s: string, c: char, a: string, b: string)
    requires s == a + [c] + b && c !in a
    ensures IndexOf(s, c) == |a|
  {
    if a != [] {
      assert s[0] == a[0] && a[0] in a;
      assert s[1..] == a[1..] + [c] + b;
      FirstOne(s[1..], c, a[1..], b);
    }
  }

  /** A tag that is not empty is what is hashed. */
  lemma {:induction false} TagIsHashed(key: string, marks: string, before: string, tag: string, after: string)
    requires |marks| >= 2 && Tagged(key, marks[0], marks[1], before, tag, after)
    ensures HashPart(key, marks) == tag
  {
    hide IndexOf;
    var rest := tag + [marks[1]] + after;
    assert key == before + [marks[0]] + rest;
    FirstOne(key, marks[0], before, rest);
    assert key[|before| + 1..] == rest;
    FirstOne(rest, marks[1], tag, after);
    assert rest[..|tag|] == tag;
  }

  /** A key without one is hashed whole. */
  lemma {:induction false} NoTagIsWhole(key: string, marks: string) returns (before: string, after: string)
    requires |marks| >= 2
    ensures HashPart(key, marks) == key
            || Tagged(key, marks[0], marks[1], before, HashPart(key, marks), after)
  {
    hide IndexOf;
    before, after := [], [];
    var i := IndexOf(key, marks[0]);
    if i < |key| {
      var rest := key[i + 1..];
      var j := IndexOf(rest, marks[1]);
      if 0 < j < |rest| {
        before, after := key[..i], rest[j + 1..];
        assert rest == rest[..j] + [marks[1]] + after;
        assert key == before + [marks[0]] + rest;
        assert key == before + [marks[0]] + rest[..j] + [marks[1]] + after;
      }
    }
  }

  /** `hashTagStr` */
  method HashTagStr(buf: string, marks: string) returns (r: string)
    ensures r == HashPart(buf, marks)
  {
    hide IndexOf;
    if |marks| < 2 { return buf; }
    var i: nat := 0;
    while i < |buf| && buf[i] != marks[0]
      invariant i <= |buf| && marks[0] !in buf[..i]
    {
      assert buf[..i + 1] == buf[..i] + [buf[i]];
      i := i + 1;
    }
    IndexFound(buf, marks[0], i);
    if i == |buf| { return buf; }
    i := i + 1;
    var b := i;
    ghost var rest := buf[b..];
    while i < |buf| && buf[i] != marks[1]
      invariant b <= i <= |buf| && marks[1] !in rest[..i - b]
    {
      assert rest[..i + 1 - b] == rest[..i - b] + [buf[i]];
      i := i + 1;
    }
    IndexFound(rest, marks[1], i - b);
    if i == |buf| { return buf; }
    var e := i;
    assert rest[..i - b] == buf[b..e];
    r := if b < e then buf[b..e] else buf;
  }

  lemma {:induction false} IndexFound(s: string, c: char, i: nat)
    requires i <= |s| && c !in s[..i] && (i < |s| ==> s[i] == c)
    ensures IndexOf(s, c) == i
  {
    if i < |s| {
      assert s == s[..i] + [c] + s[i + 1..];
      FirstOne(s, c, s[..i], s[i + 1..]);
    } else {
      assert s[..i] == s;
    }
  }

  /** A `char` holds one byte. */
  function Octets(s: string): seq<bv8> {
    seq(|s|, i requires 0 <= i < |s| => (s[i] as int % 256) as bv8)
  }

  const SLOTS_MASK: bv16 := 0x3fff
  const HASH_TAG := "{}"

  /** `i &= Const::RedisClusterSlotsMask` */
  function Masked(crc: bv16): (slot: bv16)
    ensures slot <= 16383
  {
    crc & SLOTS_MASK
  }

  function Slot(key: string): bv16 { Masked(Fold(0, Octets(HashPart(key, HASH_TAG)))) }

  /** The part of the key that is hashed is the tag in braces, or all of it if there is none. */
  ghost predicate IsHashed(key: string, part: string) {
    || (exists before, after :: Tagged(key, '{', '}', before, part, after))
    || (part == key && forall before, tag, after :: !Tagged(key, '{', '}', before, tag, after))
  }

  /** The bytes of a string, whose characters each are one. */
  predicate AreBytes(part: string, bytes: seq<bv8>) {
    |bytes| == |part| && forall i :: 0 <= i < |part| ==> bytes[i] as int == part[i] as int
  }

  /** The slot of a key is the remainder of the division of what is hashed of it by x^16 + x^12 + x^5 + 1, as a number,
      modulo 16384. */
  lemma {:induction false} SlotIsRemainder(key: string, part: string, bytes: seq<bv8>, crc: bv16)
    requires IsHashed(key, part) && AreBytes(part, bytes) && Bits(crc) == Remainder(Message(bytes) + Zeros())
    ensures Slot(key) as nat == (crc as nat) % 16384
  {
    hide Fold, Octets, HashPart, Masked, Bits, Remainder, Message, Zeros, Tagged;
    HashedPart(key, part);
    OctetsAre(part, bytes);
    TableDivides(bytes);
    SameBits(crc, Fold(0, bytes));
    MaskedIs(crc);
  }

  lemma {:induction false} HashedPart(key: string, part: string)
    requires IsHashed(key, part)
    ensures HashPart(key, HASH_TAG) == part
  {
    hide HashPart, Tagged;
    if before, after :| Tagged(key, '{', '}', before, part, after) {
      TagIsHashed(key, HASH_TAG, before, part, after);
    } else {
      var before, after := NoTagIsWhole(key, HASH_TAG);
    }
  }

  lemma {:induction false} OctetsAre(part: string, bytes: seq<bv8>)
    requires AreBytes(part, bytes)
    ensures Octets(part) == bytes
  {
    forall i | 0 <= i < |part| ensures Octets(part)[i] == bytes[i] {
      assert part[i] as int == bytes[i] as int < 256;
      ByteOf(bytes[i]);
    }
  }

  lemma {:induction false} ByteOf(b: bv8)
    ensures ((b as int) as bv8) == b
  {
  }

  /** Masking is a remainder: one of four multiples of 16384 is taken off. */
  lemma {:induction false} MaskedIs(crc: bv16)
    ensures Masked(crc) as nat == (crc as nat) % 16384
  {
    hide Masked;
    MaskedIsSmall(crc);
    if crc < 0x4000 {
      NothingOff(crc);
    } else if crc < 0x8000 {
      OneOff(crc);
    } else if crc < 0xc000 {
      TwoOff(crc);
    } else {
      ThreeOff(crc);
    }
    RemainderIs(crc as nat, Masked(crc) as nat);
  }

  lemma {:induction false} RemainderIs(n: nat, m: nat)
    requires m < 16384 && m <= n && n - m in {0, 16384, 32768, 49152}
    ensures m == n % 16384
  {
  }

  lemma {:induction false} MaskedIsSmall(crc: bv16)
    ensures Masked(crc) as nat < 0x4000
  {
    hide Masked;
    MaskedBelow(crc);
    BelowAsNumber(Masked(crc));
  }

  lemma {:induction false} MaskedBelow(crc: bv16)
    ensures Masked(crc) < 0x4000
  {
  }

  lemma {:induction false} BelowAsNumber(w: bv16)
    requires w < 0x4000
    ensures w as nat < 0x4000
  {
  }

  lemma {:induction false} NothingOff(crc: bv16)
    requires crc < 0x4000
    ensures Masked(crc) == crc
  {
  }

  lemma {:induction false} OneOff(crc: bv16)
    requires 0x4000 <= crc < 0x8000
    ensures Masked(crc) as nat == crc as nat - 0x4000
  {
    hide Masked;
    MaskedOne(crc);
    LessOne(crc);
  }

  lemma {:induction false} MaskedOne(crc: bv16)
    requires 0x4000 <= crc < 0x8000
    ensures Masked(crc) == crc - 0x4000
  {
  }

  lemma {:induction false} LessOne(w: bv16)
    requires 0x4000 <= w
    ensures (w - 0x4000) as nat == w as nat - 0x4000
  {
  }

  lemma {:induction false} TwoOff(crc: bv16)
    requires 0x8000 <= crc < 0xc000
    ensures Masked(crc) as nat == crc as nat - 0x8000
  {
    hide Masked;
    MaskedTwo(crc);
    LessTwo(crc);
  }

  lemma {:induction false} MaskedTwo(crc: bv16)
    requires 0x8000 <= crc < 0xc000
    ensures Masked(crc) == crc - 0x8000
  {
  }

  lemma {:induction false} LessTwo(w: bv16)
    requires 0x8000 <= w
    ensures (w - 0x8000) as nat == w as nat - 0x8000
  {
  }

  lemma {:induction false} ThreeOff(crc: bv16)
    requires 0xc000 <= crc
    ensures Masked(crc) as nat == crc as nat - 0xc000
  {
    hide Masked;
    MaskedThree(crc);
    LessThree(crc);
  }

  lemma {:induction false} MaskedThree(crc: bv16)
    requires 0xc000 <= crc
    ensures Masked(crc) == crc - 0xc000
  {
  }

  lemma {:induction false} LessThree(w: bv16)
    requires 0xc000 <= w
    ensures (w - 0xc000) as nat == w as nat - 0xc000
  {
  }

  /** The slot that `getServer` looks up, by way of the table. */
  method SlotOf(key: string) returns (slot: bv16)
    ensures slot == Slot(key)
    ensures forall part, bytes, crc ::
              IsHashed(key, part) && AreBytes(part, bytes) && Bits(crc) == Remainder(Message(bytes) + Zeros())
              ==> slot as nat == (crc as nat) % 16384
  {
    hide Fold, Octets, HashPart, Masked, IsHashed, AreBytes, Bits, Remainder, Message, Zeros;
    var part := HashTagStr(key, HASH_TAG);
    var crc := Checksum(Octets(part));
    slot := Masked(crc);
    forall p, bytes, c | IsHashed(key, p) && AreBytes(p, bytes) && Bits(c) == Remainder(Message(bytes) + Zeros())
      ensures slot as nat == (c as nat) % 16384
    {
      SlotIsRemainder(key, p, bytes, c);
    }
  }

  /** Keys with the same tag that is not empty are in the same slot, which is one of 0 to 16383. */
  lemma {:induction false} SameTagSameSlot(k1: string, k2: string, tag: string,
                                          b1: string, a1: string, b2: string, a2: string)
    requires Tagged(k1, '{', '}', b1, tag, a1) && Tagged(k2, '{', '}', b2, tag, a2)
    ensures Slot(k1) == Slot(k2) == Masked(Fold(0, Octets(tag))) && Slot(k1) <= 16383
  {
    hide Fold, Octets, HashPart, Tagged, Masked;
    TagIsHashed(k1, HASH_TAG, b1, tag, a1);
    TagIsHashed(k2, HASH_TAG, b2, tag, a2);
  }
}
