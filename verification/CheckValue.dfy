/**
  A known answer for the checksum, and with it the order of bits and bytes: the checksum of the ASCII digits 1 to 9, by
  which variants of this checksum are told apart, is 0x29B1.
 */
module CheckValue {
  import opened Crc16
  import opened ShortFrames

  /** One message byte enters the checksum word, as in the body of the byte loop. */
  function NextWord(w: bv16, b: byte): bv16 {
    var v := w ^ ((b as bv16) << 8);
    Turn(Turn(Turn(Turn(Turn(Turn(Turn(Turn(v))))))))
  }

  lemma EightTurns(v: bv16)
    ensures Turns(v, 8) == Turn(Turn(Turn(Turn(Turn(Turn(Turn(Turn(v))))))))
  {
    FourTurns(v);
    FourTurns(Turns(v, 4));
    hide Turn;
    TurnsAdd(v, 4, 4);
  }

  lemma {:induction false} TurnsAdd(v: bv16, m: nat, n: nat)
    ensures Turns(v, m + n) == Turns(Turns(v, m), n)
    decreases m
  {
    hide Turn;
    if m > 0 {
      TurnsAdd(Turn(v), m - 1, n);
      assert m + n - 1 == m - 1 + n;
    }
  }

  /** The checksum word follows the register byte by byte. */
  lemma NextByteWord(w: bv16, v: bv16, data: seq<byte>, b: byte)
    requires IsWord(w, Register(data)) && v == NextWord(w, b)
    ensures IsWord(v, Register(data + [b]))
  {
    var r, u := Register(data), w ^ ((b as bv16) << 8);
    EnterByte(w, b, r);
    EightTurns(u);
    hide IsWord, Turns, Turn, Register, ByteBits, Mix, Feed;
    TurnsWord(u, Mix(r, ByteBits(b)), 8);
    FeedMix(r, ByteBits(b));
    RegisterPush(data, b);
  }

  lemma RegisterPush(data: seq<byte>, b: byte)
    ensures Register(data + [b]) == Feed(Register(data), ByteBits(b))
  {
    BitsAppend(data, [b]);
    assert Bits([b]) == ByteBits(b);
    FeedAppend(Preset(), Bits(data), ByteBits(b));
    hide ByteBits, Feed;
  }

  function Digits(): seq<byte> {
    [0x31, 0x32, 0x33, 0x34, 0x35, 0x36, 0x37, 0x38, 0x39]
  }

  /** The check value of the checksum. */
  lemma DigitsChecksum(crc: bv16)
    ensures IsWord(crc, Register(Digits())) <==> crc == 0x29B1
  {
    hide IsWord, Register;
    PresetWord();
    assert Register([]) == Preset() by {
      EmptyRegister();
    }
    var d: seq<byte> := [];
    NextByteWord(0xFFFF, 0xC782, d, 0x31);
    d := d + [0x31];
    NextByteWord(0xC782, 0x3DBA, d, 0x32);
    d := d + [0x32];
    NextByteWord(0x3DBA, 0x5BCE, d, 0x33);
    d := d + [0x33];
    NextByteWord(0x5BCE, 0x5349, d, 0x34);
    d := d + [0x34];
    NextByteWord(0x5349, 0x4560, d, 0x35);
    d := d + [0x35];
    NextByteWord(0x4560, 0x2EF4, d, 0x36);
    d := d + [0x36];
    NextByteWord(0x2EF4, 0x7718, d, 0x37);
    d := d + [0x37];
    NextByteWord(0x7718, 0xA12B, d, 0x38);
    d := d + [0x38];
    NextByteWord(0xA12B, 0x29B1, d, 0x39);
    d := d + [0x39];
    assert d == Digits();
    SameWordOnly(crc, 0x29B1, Register(Digits()));
  }

  lemma EmptyRegister()
    ensures Register([]) == Preset()
  {}

  lemma SameWordOnly(w: bv16, v: bv16, r: seq<bool>)
    requires IsWord(v, r)
    ensures IsWord(w, r) <==> w == v
  {
    if IsWord(w, r) {
      SameWord(w, v, r);
    }
  }
}
