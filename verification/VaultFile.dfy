/**
 The exported vault file: the metadata's length in four bytes, the metadata, and the blob.
 How metadata is written out is left to a codec.
 */
module VaultFile {
  import opened Results
  import opened EntryMac

  datatype Codec = Codec(encode: Meta -> Bytes, decode: Bytes -> Option<Meta>)

  /** What is written reads back, and what is cut short does not read at all. */
  ghost predicate Sound(codec: Codec) {
    && (forall m :: codec.decode(codec.encode(m)) == Some(m))
    && (forall m, k :: 0 <= k < |codec.encode(m)| ==> codec.decode(codec.encode(m)[..k]) == None)
  }

  const WORD: int := 0x1_0000_0000

  /** The length field keeps the low 32 bits, least significant byte first. */
  function LengthField(n: nat): (b: Bytes)
    ensures |b| == 4
  {
    var w := n % WORD;
    [w % 0x100, w / 0x100 % 0x100, w / 0x1_0000 % 0x100, w / 0x100_0000]
  }

  function ReadLength(b: Bytes): (n: nat)
    requires |b| >= 4
  {
    var b0: int, b1: int, b2: int, b3: int := b[0], b[1], b[2], b[3];
    b0 + 0x100 * b1 + 0x1_0000 * b2 + 0x100_0000 * b3
  }

  lemma LengthReadsBack(n: nat)
    ensures ReadLength(LengthField(n)) == n % WORD
  {
    var w := n % WORD;
    assert w / 0x100 / 0x100 == w / 0x1_0000;
    assert w / 0x1_0000 / 0x100 == w / 0x100_0000;
  }

  function Written(codec: Codec, m: Meta, blob: Bytes): (file: Bytes) {
    var json := codec.encode(m);
    LengthField(|json|) + json + blob
  }

  datatype Refusal = TooSmall | Truncated | BadMetadata

  datatype Parsed = Accepted(meta: Meta, blob: Bytes) | Refused(why: Refusal)

  function Parse(codec: Codec, file: Bytes): (r: Parsed) {
    if |file| < 4 then Refused(TooSmall)
    else
      var n := ReadLength(file);
      if |file| < 4 + n then Refused(Truncated)
      else
        match codec.decode(file[4..4 + n])
        case Some(m) => Accepted(m, file[4 + n..])
        case None => Refused(BadMetadata)
  }

  lemma WrittenLength(codec: Codec, m: Meta, blob: Bytes, k: nat)
    requires var file := Written(codec, m, blob); 4 <= k <= |file|
    ensures var file := Written(codec, m, blob); ReadLength(file[..k]) == |codec.encode(m)| % WORD
  {
    LengthReadsBack(|codec.encode(m)|);
  }

  /** An exported file reads back as it was exactly when the metadata's length fits the field. */
  lemma RoundTripIff(codec: Codec, m: Meta, blob: Bytes)
    requires Sound(codec)
    ensures Parse(codec, Written(codec, m, blob)) == Accepted(m, blob) <==> |codec.encode(m)| < WORD
  {
    var json, file := codec.encode(m), Written(codec, m, blob);
    WrittenLength(codec, m, blob, |file|);
    assert file[..|file|] == file;
    if |json| < WORD {
      assert file[4..4 + |json|] == json;
      assert file[4 + |json|..] == blob;
    } else {
      var n := |json| % WORD;
      assert file[4..4 + n] == json[..n];
    }
  }

  /** Metadata too long for the field makes a file that is never accepted, whatever follows it. */
  lemma OverlongMetadataRefused(codec: Codec, m: Meta, blob: Bytes)
    requires Sound(codec) && |codec.encode(m)| >= WORD
    ensures Parse(codec, Written(codec, m, blob)) == Refused(BadMetadata)
  {
    var json, file := codec.encode(m), Written(codec, m, blob);
    WrittenLength(codec, m, blob, |file|);
    assert file[..|file|] == file;
    var n := |json| % WORD;
    assert file[4..4 + n] == json[..n];
  }

  lemma WrittenParts(codec: Codec, m: Meta, blob: Bytes)
    ensures var json, file := codec.encode(m), Written(codec, m, blob);
            |file| == 4 + |json| + |blob| && file[4..4 + |json|] == json && file[4 + |json|..] == blob
  {
  }

  /**
   Of a file cut short, exactly what cuts the header or the metadata is refused; what cuts
   only the blob is accepted with as much of the blob as is left.
   */
  lemma CutFileRefusedIff(codec: Codec, m: Meta, blob: Bytes, k: nat)
    requires Sound(codec) && |codec.encode(m)| < WORD
    requires k <= |Written(codec, m, blob)|
    ensures var head := 4 + |codec.encode(m)|;
            Parse(codec, Written(codec, m, blob)[..k])
            == (if k < 4 then Refused(TooSmall)
                else if k < head then Refused(Truncated)
                else Accepted(m, blob[..k - head]))
  {
    var json, file := codec.encode(m), Written(codec, m, blob);
    var cut, head := file[..k], 4 + |json|;
    if k >= 4 {
      WrittenLength(codec, m, blob, k);
      if k >= head {
        WrittenParts(codec, m, blob);
        assert cut[4..head] == file[4..head];
        assert cut[head..] == file[head..][..k - head];
      }
    }
  }
}
