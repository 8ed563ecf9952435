/**
 * The exported library file: a 4-byte little-endian length, the library's JSON,
 * then the database.  Backups write it, the import handler reads it.
 */
module ExportFrame {
  import opened Prelude

  newtype byte = x: int | 0 <= x < 256

  type Bytes = seq<byte>

  const I32_SPAN := 0x1_0000_0000
  const I32_LIMIT := 0x8000_0000
  const USIZE_SPAN := 0x1_0000_0000_0000_0000

  /** The longest vector there can be: isize::MAX bytes. */
  const LONGEST := 0x7fff_ffff_ffff_ffff

  // ---------------------------------------------------------------------------
  // 32-bit lengths
  // ---------------------------------------------------------------------------

  /** Truncating cast of a length to a signed 32-bit number. */
  function AsI32(n: nat): int {
    var low := n % I32_SPAN;
    if low < I32_LIMIT then low else low - I32_SPAN
  }

  /** Sign-extending cast of a signed 32-bit number to a 64-bit size. */
  function AsUsize(i: int): nat
    requires -I32_LIMIT <= i < I32_LIMIT
  {
    if i >= 0 then i else i + USIZE_SPAN
  }

  function Pow256(k: nat): (r: nat)
    ensures r > 0
  {
    if k == 0 then 1 else 256 * Pow256(k - 1)
  }

  /** The k low bytes, lowest first. */
  function LowBytes(n: nat, k: nat): (r: Bytes)
    ensures |r| == k
  {
    if k == 0 then [] else [(n % 256) as byte] + LowBytes(n / 256, k - 1)
  }

  function Value(b: Bytes): (n: nat)
    ensures n < Pow256(|b|)
  {
    if b == [] then 0 else b[0] as nat + 256 * Value(b[1..])
  }

  lemma {:induction false} ValueOfLowBytes(n: nat, k: nat)
    requires n < Pow256(k)
    ensures Value(LowBytes(n, k)) == n
  {
    if k > 0 {
      ValueOfLowBytes(n / 256, k - 1);
      assert LowBytes(n, k)[1..] == LowBytes(n / 256, k - 1);
    }
  }

  lemma HeadAndRest(head: byte, rest: nat)
    ensures var n := head as nat + 256 * rest;
      n % 256 == head as nat && n / 256 == rest
  {
  }

  lemma {:induction false} LowBytesOfValue(b: Bytes)
    ensures LowBytes(Value(b), |b|) == b
  {
    if b != [] {
      LowBytesOfValue(b[1..]);
      HeadAndRest(b[0], Value(b[1..]));
      assert b == [b[0]] + b[1..];
    }
  }

  lemma FourBytes()
    ensures Pow256(4) == I32_SPAN
  {
    assert Pow256(1) == 256 && Pow256(2) == 65536 && Pow256(3) == 16777216;
  }

  /** Little-endian two's complement. */
  function ToLeBytes(i: int): (r: Bytes)
    requires -I32_LIMIT <= i < I32_LIMIT
    ensures |r| == 4
  {
    LowBytes(if i >= 0 then i else i + I32_SPAN, 4)
  }

  function FromLeBytes(b: Bytes): (i: int)
    requires |b| == 4
    ensures -I32_LIMIT <= i < I32_LIMIT
  {
    FourBytes();
    if Value(b) < I32_LIMIT then Value(b) else Value(b) - I32_SPAN
  }

  lemma FromToLe(i: int)
    requires -I32_LIMIT <= i < I32_LIMIT
    ensures FromLeBytes(ToLeBytes(i)) == i
  {
    FourBytes();
    ValueOfLowBytes(if i >= 0 then i else i + I32_SPAN, 4);
  }

  lemma ToFromLe(b: Bytes)
    requires |b| == 4
    ensures ToLeBytes(FromLeBytes(b)) == b
  {
    LowBytesOfValue(b);
  }

  /** The lowest byte comes first; negative numbers are shifted up by 2^32. */
  lemma BytesOfLength(i: int)
    requires -I32_LIMIT <= i < I32_LIMIT
    ensures var b := ToLeBytes(i);
      b[0] as int + 0x100 * b[1] as int + 0x1_0000 * b[2] as int + 0x100_0000 * b[3] as int
        == if i >= 0 then i else i + 0x1_0000_0000
  {
    var b := ToLeBytes(i);
    FourBytes();
    ValueOfLowBytes(if i >= 0 then i else i + I32_SPAN, 4);
    assert b[1..][1..] == b[2..] && b[2..][1..] == b[3..] && b[3..][1..] == [];
    assert Value(b[3..]) == b[3] as nat;
    assert Value(b[2..]) == b[2] as nat + 256 * Value(b[3..]);
    assert Value(b[1..]) == b[1] as nat + 256 * Value(b[2..]);
  }

  // ---------------------------------------------------------------------------
  // Writing and reading a frame
  // ---------------------------------------------------------------------------

  function Frame(json: Bytes, db: Bytes): Bytes {
    ToLeBytes(AsI32(|json|)) + json + db
  }

  /** The uploaded bytes and their declared size; without a library the file goes out as it is. */
  method PrepareUpload(content: Bytes, library: Option<Bytes>) returns (reader: Bytes, fileSize: nat)
    ensures reader == if library.Some? then Frame(library.value, content) else content
    ensures fileSize == |reader|
  {
    fileSize := |content|;
    if library.Some? {
      var json := library.value;
      var size := AsI32(|json|);
      var combined: Bytes := [];
      combined := combined + ToLeBytes(size);
      combined := combined + json;
      combined := combined + content;
      fileSize := fileSize + 4 + |json|;
      reader := combined;
    } else {
      reader := content;
    }
  }

  /** Out-of-range slices stop the handler. */
  datatype Decoded = Parts(json: Bytes, db: Bytes) | Panic

  function Decode(data: Bytes): Decoded {
    if |data| < 4 then Panic
    else
      var size := AsUsize(FromLeBytes(data[..4]));
      var end := (4 + size) % USIZE_SPAN;
      if 4 <= end <= |data| then Parts(data[4..end], data[end..]) else Panic
  }

  // ---------------------------------------------------------------------------
  // What comes back
  // ---------------------------------------------------------------------------

  lemma DecodeWithLength(prefix: Bytes, json: Bytes, db: Bytes)
    requires |prefix| == 4 && FromLeBytes(prefix) == |json|
    ensures Decode(prefix + json + db) == Parts(json, db)
  {
    var data := prefix + json + db;
    assert data[..4] == prefix && data[4..4 + |json|] == json && data[4 + |json|..] == db;
  }

  lemma DecodedLength(data: Bytes, json: Bytes, db: Bytes)
    requires |data| <= LONGEST && Decode(data) == Parts(json, db)
    ensures FromLeBytes(data[..4]) == |json| && data == data[..4] + json + db
  {
  }

  lemma FrameDecodes(json: Bytes, db: Bytes)
    requires |json| < I32_LIMIT
    ensures Decode(Frame(json, db)) == Parts(json, db)
  {
    hide ToLeBytes, FromLeBytes, Decode;
    FromToLe(|json|);
    DecodeWithLength(ToLeBytes(|json|), json, db);
  }

  lemma FrameIs(json: Bytes, db: Bytes)
    requires |json| < I32_LIMIT
    ensures Frame(json, db) == ToLeBytes(|json|) + json + db
  {
  }

  lemma DecodedIsFrame(data: Bytes, json: Bytes, db: Bytes)
    requires |data| <= LONGEST && Decode(data) == Parts(json, db)
    ensures |json| < I32_LIMIT && data == Frame(json, db)
  {
    assert |data| >= 4;
    var prefix := data[..4];
    if |json| < I32_LIMIT { FrameIs(json, db); }
    hide *;
    DecodedLength(data, json, db);
    ToFromLe(prefix);
  }

  /** Decoding succeeds exactly on the frames of JSON shorter than 2^31 bytes, and returns their parts. */
  lemma DecodesExactlyFrames(data: Bytes, json: Bytes, db: Bytes)
    requires |data| <= LONGEST
    ensures Decode(data) == Parts(json, db) <==> |json| < I32_LIMIT && data == Frame(json, db)
  {
    if |json| < I32_LIMIT && data == Frame(json, db) {
      FrameDecodes(json, db);
    } else if Decode(data) == Parts(json, db) {
      DecodedIsFrame(data, json, db);
    }
  }

  /** Import undoes export if and only if the JSON is shorter than 2^31 bytes. */
  lemma RoundTripIff(json: Bytes, db: Bytes)
    requires |Frame(json, db)| <= LONGEST
    ensures Decode(Frame(json, db)) == Parts(json, db) <==> |json| < I32_LIMIT
  {
    DecodesExactlyFrames(Frame(json, db), json, db);
  }

  lemma SameLowBitsSameFrame(json: Bytes, db: Bytes, low: nat)
    requires low <= |json| && AsI32(low) == AsI32(|json|)
    ensures Frame(json, db) == Frame(json[..low], json[low..] + db)
  {
    assert json == json[..low] + json[low..];
  }

  lemma NegativeLengthPanics(data: Bytes)
    requires 4 <= |data| <= LONGEST && FromLeBytes(data[..4]) < 0
    ensures Decode(data) == Panic
  {
  }

  /** Longer JSON is cut at its length's low 32 bits, or stops the handler when bit 31 is set. */
  lemma LongJsonIsCut(json: Bytes, db: Bytes)
    requires |json| >= I32_LIMIT && |Frame(json, db)| <= LONGEST
    ensures var low := |json| % I32_SPAN;
      Decode(Frame(json, db)) == if low < I32_LIMIT then Parts(json[..low], json[low..] + db) else Panic
  {
    var low := |json| % I32_SPAN;
    if low < I32_LIMIT {
      SameLowBitsSameFrame(json, db, low);
      DecodesExactlyFrames(Frame(json, db), json[..low], json[low..] + db);
    } else {
      FromToLe(AsI32(|json|));
      assert Frame(json, db)[..4] == ToLeBytes(AsI32(|json|));
      NegativeLengthPanics(Frame(json, db));
    }
  }
}
