/** A cache file: a header of 48 bytes, the key padded to eight bytes, and the payload. The byte hash and the version
of the source tree are parameters. */
module EntryContainer {
  import opened Uleb128
  import opened Serial

  type Hash = f: seq<Byte> -> nat | forall bytes :: f(bytes) < WORD_LIMIT witness (bytes: seq<Byte>) => 0

  const MAGIC: nat := 0x43535041
  const HEADER: nat := 48

  /** What this build writes into a header. */
  datatype Build = Build(format: nat, sourceVersion: nat)

  ghost predicate FitsBuild(b: Build) { b.format < 0x1_0000_0000 && b.sourceVersion < WORD_LIMIT }

  datatype Header = Header(magic: nat, format: nat, sourceVersion: nat, keyBytes: nat, payloadBytes: nat, keyHash: nat,
                           payloadHash: nat)

  datatype Status = Loaded(payload: seq<Byte>) | KeyMismatch | Rejected

  function PayloadOffset(keyBytes: nat): (offset: nat)
    ensures HEADER + keyBytes <= offset < HEADER + keyBytes + 8 && offset % 8 == 0
  {
    (HEADER + keyBytes + 7) / 8 * 8
  }

  function Zeros(n: nat): seq<Byte> { seq(n, _ => 0) }

  function HeaderOf(b: Build, hash: Hash, key: seq<Byte>, payload: seq<Byte>): Header {
    Header(MAGIC, b.format, b.sourceVersion, |key|, |payload|, hash(key), hash(payload))
  }

  function HeaderBytes(h: Header): (bytes: seq<Byte>)
    ensures |bytes| == HEADER
  {
    Fixed(h.magic, 4) + (Fixed(h.format, 4) + (Fixed(h.sourceVersion, 8) + (Fixed(h.keyBytes, 8)
    + (Fixed(h.payloadBytes, 8) + (Fixed(h.keyHash, 8) + Fixed(h.payloadHash, 8))))))
  }

  function ReadHeader(file: seq<Byte>): Header
    requires |file| >= HEADER
  {
    Header(FixedValue(file[..4]), FixedValue(file[4..8]), FixedValue(file[8..16]), FixedValue(file[16..24]),
           FixedValue(file[24..32]),
           FixedValue(file[32..40]), FixedValue(file[40..48]))
  }

  function Wrap(b: Build, hash: Hash, key: seq<Byte>, payload: seq<Byte>): seq<Byte> {
    HeaderBytes(HeaderOf(b, hash, key, payload)) + key + Zeros(PayloadOffset(|key|) - HEADER - |key|) + payload
  }

  predicate AllZero(bytes: seq<Byte>) { forall i :: 0 <= i < |bytes| ==> bytes[i] == 0 }

  function Unwrap(b: Build, hash: Hash, file: seq<Byte>, key: seq<Byte>): Status {
    if |file| < HEADER then Rejected
    else
      var h := ReadHeader(file);
      if h.magic != MAGIC || h.format != b.format || h.sourceVersion != b.sourceVersion then Rejected
      else if h.keyBytes > |file| - HEADER then Rejected
      else
        var offset := PayloadOffset(h.keyBytes);
        if offset > |file| || h.payloadBytes != |file| - offset then Rejected
        else
          var storedKey := file[HEADER..HEADER + h.keyBytes];
          var payload := file[offset..];
          if !AllZero(file[HEADER + h.keyBytes..offset]) then Rejected
          else if hash(storedKey) != h.keyHash then Rejected
          else if storedKey != key then KeyMismatch
          else if hash(payload) != h.payloadHash then Rejected
          else Loaded(payload)
  }

  ghost predicate FitsHeader(h: Header) {
    && h.magic < Range(4) && h.format < Range(4) && h.sourceVersion < Range(8) && h.keyBytes < Range(8)
    && h.payloadBytes < Range(8) && h.keyHash < Range(8) && h.payloadHash < Range(8)
  }

  lemma SevenParts(a: seq<Byte>, b: seq<Byte>, c: seq<Byte>, d: seq<Byte>, e: seq<Byte>, f: seq<Byte>, g: seq<Byte>,
                   all: seq<Byte>)
    requires |a| == 4 && |b| == 4 && |c| == |d| == |e| == |f| == |g| == 8 && |all| >= 48
    ensures all[..48] == a + (b + (c + (d + (e + (f + g))))) <==>
            all[..4] == a && all[4..8] == b && all[8..16] == c && all[16..24] == d && all[24..32] == e
              && all[32..40] == f && all[40..48] == g
  {
    assert all[..48] == all[..4] + (all[4..8]
                                    + (all[8..16] + (all[16..24] + (all[24..32] + (all[32..40] + all[40..48])))));
  }

  /** A header reads back from its bytes. */
  lemma HeaderReads(file: seq<Byte>, h: Header)
    requires FitsHeader(h) && |file| >= HEADER && file[..HEADER] == HeaderBytes(h)
    ensures ReadHeader(file) == h
  {
    SevenParts(Fixed(h.magic, 4), Fixed(h.format, 4), Fixed(h.sourceVersion, 8), Fixed(h.keyBytes, 8),
               Fixed(h.payloadBytes, 8),
               Fixed(h.keyHash, 8), Fixed(h.payloadHash, 8), file);
    FixedReads(h.magic, 4);
    FixedReads(h.format, 4);
    FixedReads(h.sourceVersion, 8);
    FixedReads(h.keyBytes, 8);
    FixedReads(h.payloadBytes, 8);
    FixedReads(h.keyHash, 8);
    FixedReads(h.payloadHash, 8);
  }

  /** The first bytes of a file are those of the header it reads as. */
  lemma HeaderWrites(file: seq<Byte>)
    requires |file| >= HEADER
    ensures FitsHeader(ReadHeader(file)) && file[..HEADER] == HeaderBytes(ReadHeader(file))
  {
    var h := ReadHeader(file);
    FixedWrites(file[..4]);
    FixedWrites(file[4..8]);
    FixedWrites(file[8..16]);
    FixedWrites(file[16..24]);
    FixedWrites(file[24..32]);
    FixedWrites(file[32..40]);
    FixedWrites(file[40..48]);
    SevenParts(Fixed(h.magic, 4), Fixed(h.format, 4), Fixed(h.sourceVersion, 8), Fixed(h.keyBytes, 8),
               Fixed(h.payloadBytes, 8),
               Fixed(h.keyHash, 8), Fixed(h.payloadHash, 8), file);
  }

  /** A wrapped entry loads, with the payload it was given. */
  lemma WrappedLoads(b: Build, hash: Hash, key: seq<Byte>, payload: seq<Byte>)
    requires FitsBuild(b) && |key| < WORD_LIMIT && |payload| < WORD_LIMIT
    ensures Unwrap(b, hash, Wrap(b, hash, key, payload), key) == Loaded(payload)
  {
    RangeOf8();
    var h := HeaderOf(b, hash, key, payload);
    var file := Wrap(b, hash, key, payload);
    var offset := PayloadOffset(|key|);
    assert file[..HEADER] == HeaderBytes(h);
    HeaderReads(file, h);
    assert file[HEADER..HEADER + |key|] == key && file[offset..] == payload;
    assert file[HEADER + |key|..offset] == Zeros(offset - HEADER - |key|);
  }

  /** What loads is, byte for byte, the wrapped entry of that key and payload. */
  lemma LoadedIsWrapped(b: Build, hash: Hash, file: seq<Byte>, key: seq<Byte>)
    requires Unwrap(b, hash, file, key).Loaded?
    ensures file == Wrap(b, hash, key, Unwrap(b, hash, file, key).payload)
  {
    HeaderWrites(file);
    var h := ReadHeader(file);
    var offset := PayloadOffset(h.keyBytes);
    assert file[HEADER + h.keyBytes..offset] == Zeros(offset - HEADER - h.keyBytes);
    assert file == file[..HEADER] + file[HEADER..HEADER + h.keyBytes] + file[HEADER + h.keyBytes..offset]
        + file[offset..];
  }

  /** A file loads for a key exactly when it is a wrapped entry of that key. */
  lemma LoadsExactlyWrapped(b: Build, hash: Hash, file: seq<Byte>, key: seq<Byte>, payload: seq<Byte>)
    requires FitsBuild(b) && |key| < WORD_LIMIT && |payload| < WORD_LIMIT
    ensures Unwrap(b, hash, file, key) == Loaded(payload) <==> file == Wrap(b, hash, key, payload)
  {
    WrappedLoads(b, hash, key, payload);
    if Unwrap(b, hash, file, key) == Loaded(payload) { LoadedIsWrapped(b, hash, file, key); }
  }

  /** An entry never loads for another key, hash collisions or not. */
  lemma OtherKeyMismatches(b: Build, hash: Hash, key: seq<Byte>, payload: seq<Byte>, other: seq<Byte>)
    requires FitsBuild(b) && |key| < WORD_LIMIT && |payload| < WORD_LIMIT && other != key
    ensures Unwrap(b, hash, Wrap(b, hash, key, payload), other) == KeyMismatch
  {
    RangeOf8();
    var h := HeaderOf(b, hash, key, payload);
    var file := Wrap(b, hash, key, payload);
    var offset := PayloadOffset(|key|);
    assert file[..HEADER] == HeaderBytes(h);
    HeaderReads(file, h);
    assert file[HEADER..HEADER + |key|] == key && file[HEADER + |key|..offset] == Zeros(offset - HEADER - |key|);
  }
}
