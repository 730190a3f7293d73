/** Little-endian 16-bit PCM: the byte layout shared by the codec, the float
    conversions and the resamplers. */
module Pcm16 {
  import opened GoArith

  function Low(v: int16): byte {
    Uint16(v) % 256
  }

  function High(v: int16): byte {
    Uint16(v) / 256
  }

  function Load(low: byte, high: byte): int16 {
    WrapInt16(low + 256 * high)
  }

  /** The samples held by a byte buffer; an odd last byte is not a sample. */
  function Samples(bytes: seq<byte>): (s: seq<int16>)
    ensures |s| == |bytes| / 2
  {
    seq(|bytes| / 2, i requires 0 <= i < |bytes| / 2 => Load(bytes[2 * i], bytes[2 * i + 1]))
  }

  /** The byte buffer holding the given samples. */
  function Bytes(samples: seq<int16>): (b: seq<byte>)
    ensures |b| == 2 * |samples|
  {
    seq(2 * |samples|, k requires 0 <= k < 2 * |samples| =>
      if k % 2 == 0 then Low(samples[k / 2]) else High(samples[k / 2]))
  }

  lemma BytesAt(s: seq<int16>, i: nat)
    requires i < |s|
    ensures Bytes(s)[2 * i] == Low(s[i]) && Bytes(s)[2 * i + 1] == High(s[i])
  {
    assert 2 * i / 2 == i && (2 * i + 1) / 2 == i;
  }

  lemma SamplesAt(b: seq<byte>, i: nat)
    requires 2 * i + 1 < |b|
    ensures i < |b| / 2 && Samples(b)[i] == Load(b[2 * i], b[2 * i + 1])
  {
  }

  /** The first byte of a sample is its low one; negative samples are stored as
      their two's complement. */
  lemma LittleEndian(v: int16)
    ensures var b := Bytes([v]);
      b[0] as int + 256 * b[1] as int == if v >= 0 then v as int else v as int + 65536
    ensures forall low: byte, high: byte ::
      Samples([low, high]) == [if high < 128 then low as int + 256 * high as int else low as int + 256 * high as int - 65536]
  {
    BytesAt([v], 0);
    forall low: byte, high: byte
      ensures Samples([low, high]) == [if high < 128 then low as int + 256 * high as int else low as int + 256 * high as int - 65536]
    {
      SamplesAt([low, high], 0);
    }
  }

  lemma LoadStored(v: int16)
    ensures Load(Low(v), High(v)) == v
  {
  }

  /** Writing samples out and reading them back loses nothing. */
  lemma SamplesOfBytes(s: seq<int16>)
    ensures Samples(Bytes(s)) == s
  {
    forall i | 0 <= i < |s|
      ensures Samples(Bytes(s))[i] == s[i]
    {
      BytesAt(s, i);
      LoadStored(s[i]);
    }
  }

  /** Cutting a buffer at a sample boundary cuts its samples there. */
  lemma SamplesOfConcat(a: seq<byte>, b: seq<byte>)
    requires |a| % 2 == 0
    ensures Samples(a + b) == Samples(a) + Samples(b)
  {
    forall i | 0 <= i < |a + b| / 2
      ensures Samples(a + b)[i] == (Samples(a) + Samples(b))[i]
    {
      if i >= |a| / 2 {
        assert (a + b)[2 * i] == b[2 * (i - |a| / 2)];
        assert (a + b)[2 * i + 1] == b[2 * (i - |a| / 2) + 1];
      }
    }
  }

  lemma BytesConcat(a: seq<int16>, b: seq<int16>)
    ensures Bytes(a + b) == Bytes(a) + Bytes(b)
  {
    hide Low, High;
    forall k | 0 <= k < 2 * |a + b|
      ensures Bytes(a + b)[k] == (Bytes(a) + Bytes(b))[k]
    {
      var i := k / 2;
      BytesAt(a + b, i);
      if i < |a| {
        BytesAt(a, i);
      } else {
        BytesAt(b, i - |a|);
      }
      assert k == 2 * i || k == 2 * i + 1;
    }
  }

  /** Store one sample at byte offset `2 * i`. */
  method Put(pcm: array<byte>, i: nat, v: int16)
    requires 2 * i + 1 < pcm.Length
    modifies pcm
    ensures pcm[2 * i] == Low(v) && pcm[2 * i + 1] == High(v)
    ensures forall k :: 0 <= k < pcm.Length && k != 2 * i && k != 2 * i + 1 ==> pcm[k] == old(pcm[k])
  {
    pcm[2 * i] := Low(v);
    pcm[2 * i + 1] := High(v);
  }
}
