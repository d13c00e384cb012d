/** The encrypted backup file: each chunk encrypted on its own and written behind a 4-byte big-endian length. */
module BackupFraming {
  import opened Prelude

  const CHUNK_SIZE := 65536

  /** Encryption of the i-th chunk (it draws a fresh nonce), and decryption, which fails on a bad token. */
  type Encrypt = (nat, seq<Byte>) -> seq<Byte>
  type Decrypt = seq<Byte> -> Option<seq<Byte>>

  /** The length of a Fernet token: base64 of version, time, IV, padded ciphertext and HMAC. */
  function TokenLength(n: nat): nat { 4 * ((57 + 16 * (n / 16 + 1) + 2) / 3) }

  /** Fernet, as far as it is used: decryption undoes encryption, and the length of a token is as above. */
  ghost predicate FernetLike(enc: Encrypt, dec: Decrypt) {
    forall i, chunk :: dec(enc(i, chunk)) == Some(chunk) && |enc(i, chunk)| == TokenLength(|chunk|)
  }

  /** All that the framing needs: chunks as they are read can be decrypted, and their tokens' lengths fit the header. */
  ghost predicate Inverse(enc: Encrypt, dec: Decrypt) {
    forall i, chunk :: 1 <= |chunk| <= CHUNK_SIZE ==>
      dec(enc(i, chunk)) == Some(chunk) && |enc(i, chunk)| < 0x1_0000_0000
  }

  // ----- The length header -----

  /** struct.pack(">I", n), for n that fits. */
  function Pack(n: nat): seq<Byte> {
    [n / 256 / 256 / 256 % 256, n / 256 / 256 % 256, n / 256 % 256, n % 256]
  }

  function Shift(high: nat, low: Byte): nat { high * 256 + low }

  function Unpack(b: seq<Byte>): nat
    requires |b| == 4
  {
    Shift(Shift(Shift(b[0], b[1]), b[2]), b[3])
  }

  /** The header is the length in base 256, most significant byte first, and is read back. */
  lemma PackRoundTrip(n: nat)
    requires n < 0x1_0000_0000
    ensures var b := Pack(n); |b| == 4 && n == Shift(Shift(Shift(b[0], b[1]), b[2]), b[3])
    ensures Unpack(Pack(n)) == n
  {
    var a := n / 256;
    var b := a / 256;
    var c := b / 256;
    assert n == Shift(a, n % 256) && a == Shift(b, a % 256) && b == Shift(c, b % 256);
    assert c % 256 == c;
  }

  /** A token is the base64 text of 57 bytes and the chunk, padded to the next multiple of 16. */
  lemma TokenIsBase64(n: nat) returns (padded: nat)
    ensures padded % 16 == 0 && n < padded <= n + 16
    ensures TokenLength(n) % 4 == 0 && 4 * (57 + padded) <= 3 * TokenLength(n) < 4 * (57 + padded) + 12
  {
    padded := 16 * (n / 16 + 1);
  }

  /** The longest token is that of a full chunk, and no shorter chunk has one as long. */
  lemma TokenFits(n: nat)
    requires n <= CHUNK_SIZE
    ensures TokenLength(n) <= 87480 < 0x1_0000_0000 && (TokenLength(n) == 87480 <==> n == CHUNK_SIZE)
  {
  }

  lemma HeaderFits(enc: Encrypt, dec: Decrypt)
    requires FernetLike(enc, dec)
    ensures Inverse(enc, dec)
  {
    forall i, chunk | 1 <= |chunk| <= CHUNK_SIZE
      ensures dec(enc(i, chunk)) == Some(chunk) && |enc(i, chunk)| < 0x1_0000_0000
    {
      TokenFits(|chunk|);
    }
  }

  // ----- Writing -----

  ghost predicate Readable(chunks: seq<seq<Byte>>) {
    forall j :: 0 <= j < |chunks| ==> 1 <= |chunks[j]| <= CHUNK_SIZE
  }

  function Frame(token: seq<Byte>): seq<Byte> {
    Pack(|token|) + token
  }

  /** The frames of these chunks, the first of which is chunk number i. */
  function FileOf(enc: Encrypt, i: nat, chunks: seq<seq<Byte>>): seq<Byte>
    decreases |chunks|
  {
    if chunks == [] then [] else Frame(enc(i, chunks[0])) + FileOf(enc, i + 1, chunks[1..])
  }

  lemma {:induction false} FileSnoc(enc: Encrypt, i: nat, chunks: seq<seq<Byte>>, last: seq<Byte>)
    ensures FileOf(enc, i, chunks + [last]) == FileOf(enc, i, chunks) + Frame(enc(i + |chunks|, last))
    decreases |chunks|
  {
    if chunks == [] {
      assert chunks + [last] == [last] && [last][1..] == [];
      assert FileOf(enc, i, [last]) == Frame(enc(i, last)) + FileOf(enc, i + 1, []);
    } else {
      assert (chunks + [last])[0] == chunks[0] && (chunks + [last])[1..] == chunks[1..] + [last];
      FileSnoc(enc, i + 1, chunks[1..], last);
      Regroup(Frame(enc(i, chunks[0])), FileOf(enc, i + 1, chunks[1..]), Frame(enc(i + |chunks|, last)));
    }
  }

  /** The blocks before the first empty one, which stands for the end of the input. */
  function UntilEmpty(blocks: seq<seq<Byte>>): (r: seq<seq<Byte>>)
    ensures r <= blocks && forall j :: 0 <= j < |r| ==> r[j] != []
    ensures |r| < |blocks| ==> blocks[|r|] == []
  {
    if blocks == [] || blocks[0] == [] then [] else [blocks[0]] + UntilEmpty(blocks[1..])
  }

  lemma {:induction false} UntilEmptyIs(blocks: seq<seq<Byte>>, n: nat)
    requires n <= |blocks| && (forall j :: 0 <= j < n ==> blocks[j] != []) && (n == |blocks| || blocks[n] == [])
    ensures UntilEmpty(blocks) == blocks[..n]
  {
    if n > 0 {
      UntilEmptyIs(blocks[1..], n - 1);
      assert blocks[..n] == [blocks[0]] + blocks[1..][..n - 1];
    }
  }

  /** blocks are the successive results of read(CHUNK_SIZE). */
  method EncryptStream(enc: Encrypt, blocks: seq<seq<Byte>>) returns (out: seq<Byte>)
    requires forall j :: 0 <= j < |blocks| ==> |blocks[j]| <= CHUNK_SIZE
    ensures Readable(UntilEmpty(blocks)) && out == FileOf(enc, 0, UntilEmpty(blocks))
  {
    out := [];
    var i := 0;
    while i < |blocks|
      invariant 0 <= i <= |blocks| && Readable(blocks[..i])
      invariant out == FileOf(enc, 0, blocks[..i])
    {
      var chunk := blocks[i];
      if chunk == [] {
        UntilEmptyIs(blocks, i);
        return;
      }
      var token := enc(i, chunk);
      FileSnoc(enc, 0, blocks[..i], chunk);
      assert blocks[..i + 1] == blocks[..i] + [chunk];
      Regroup(out, Pack(|token|), token);
      out := out + Pack(|token|) + token;
      i := i + 1;
    }
    UntilEmptyIs(blocks, |blocks|);
  }

  lemma FlattenCons(first: seq<Byte>, rest: seq<seq<Byte>>)
    ensures Flatten([first] + rest) == first + Flatten(rest)
  {
    assert Init([first]) == [] && Flatten([first]) == [] + first == first;
    FlattenAppend([first], rest);
  }

  lemma Regroup(a: seq<Byte>, b: seq<Byte>, c: seq<Byte>)
    ensures a + (b + c) == (a + b) + c
  {
  }

  // ----- Reading -----

  datatype Error = IncompleteHeader | IncompleteData | InvalidToken

  datatype Outcome = Outcome(output: seq<Byte>, error: Option<Error>)

  /** One round of the reading loop: a decrypted chunk and the bytes it took, or what is wrong. */
  datatype Reading = Chunk(data: seq<Byte>, size: nat) | Fault(error: Error)

  function ReadChunk(dec: Decrypt, left: seq<Byte>): (r: Reading)
    requires left != []
    ensures r.Chunk? ==> 4 <= r.size <= |left|
  {
    if |left| < 4 then Fault(IncompleteHeader)
    else
      var n := Unpack(left[..4]);
      if |left| - 4 < n then Fault(IncompleteData)
      else
        var chunk := dec(left[4..4 + n]);
        if chunk.None? then Fault(InvalidToken) else Chunk(chunk.value, 4 + n)
  }

  function DecodeFile(dec: Decrypt, file: seq<Byte>): Outcome {
    if file == [] then Outcome([], None)
    else
      match ReadChunk(dec, file)
      case Fault(e) => Outcome([], Some(e))
      case Chunk(data, size) =>
        var rest := DecodeFile(dec, file[size..]);
        Outcome(data + rest.output, rest.error)
  }

  /** What is still to be decoded, behind what has been written. */
  function Behind(before: seq<Byte>, rest: Outcome): Outcome { Outcome(before + rest.output, rest.error) }

  lemma DecodeStep(dec: Decrypt, left: seq<Byte>, before: seq<Byte>)
    requires left != []
    ensures var r := ReadChunk(dec, left);
      Behind(before, DecodeFile(dec, left))
      == if r.Fault? then Outcome(before, Some(r.error)) else Behind(before + r.data, DecodeFile(dec, left[r.size..]))
  {
    var r := ReadChunk(dec, left);
    if r.Fault? {
      assert before + [] == before;
    } else {
      Regroup(before, r.data, DecodeFile(dec, left[r.size..]).output);
    }
  }

  /** Decrypts into an output stream; on an error, what was written before stays written.  left is what has not been
      read yet. */
  method DecryptStream(dec: Decrypt, file: seq<Byte>) returns (output: seq<Byte>, error: Option<Error>)
    ensures Outcome(output, error) == DecodeFile(dec, file)
  {
    output, error := [], None;
    var left := file;
    while left != []
      invariant DecodeFile(dec, file) == Behind(output, DecodeFile(dec, left))
      decreases |left|
    {
      DecodeStep(dec, left, output);
      match ReadChunk(dec, left)
      case Fault(e) => return output, Some(e);
      case Chunk(data, size) =>
        output := output + data;
        left := left[size..];
    }
  }

  /** The generator form: the same chunks one by one. */
  method DecryptStreamIter(dec: Decrypt, file: seq<Byte>) returns (yielded: seq<seq<Byte>>, error: Option<Error>)
    ensures Outcome(Flatten(yielded), error) == DecodeFile(dec, file)
  {
    yielded, error := [], None;
    var left := file;
    while left != []
      invariant DecodeFile(dec, file) == Behind(Flatten(yielded), DecodeFile(dec, left))
      decreases |left|
    {
      DecodeStep(dec, left, Flatten(yielded));
      match ReadChunk(dec, left)
      case Fault(e) => return yielded, Some(e);
      case Chunk(data, size) =>
        FlattenSnoc(yielded, data);
        yielded := yielded + [data];
        left := left[size..];
    }
  }

  lemma FlattenSnoc(parts: seq<seq<Byte>>, last: seq<Byte>)
    ensures Flatten(parts + [last]) == Flatten(parts) + last
  {
    assert Init(parts + [last]) == parts;
  }

  // ----- Round trip and truncation -----

  /** Where the m-th chunk ends. */
  function Boundary(enc: Encrypt, i: nat, chunks: seq<seq<Byte>>, m: nat): nat
    requires m <= |chunks|
    decreases m
  {
    if m == 0 then 0 else |Frame(enc(i, chunks[0]))| + Boundary(enc, i + 1, chunks[1..], m - 1)
  }

  /** That is, where the file of the first m chunks ends. */
  lemma {:induction false} BoundaryIsEnd(enc: Encrypt, i: nat, chunks: seq<seq<Byte>>, m: nat)
    requires m <= |chunks|
    ensures Boundary(enc, i, chunks, m) == |FileOf(enc, i, chunks[..m])| <= |FileOf(enc, i, chunks)|
    ensures FileOf(enc, i, chunks[..m]) <= FileOf(enc, i, chunks)
    decreases m
  {
    if m > 0 {
      assert chunks[..m][0] == chunks[0] && chunks[..m][1..] == chunks[1..][..m - 1];
      BoundaryIsEnd(enc, i + 1, chunks[1..], m - 1);
    }
  }

  /** One frame at the front of what is read. */
  lemma ReadFrame(enc: Encrypt, dec: Decrypt, i: nat, chunk: seq<Byte>, rest: seq<Byte>)
    requires Inverse(enc, dec) && 1 <= |chunk| <= CHUNK_SIZE
    ensures var r := DecodeFile(dec, rest);
      DecodeFile(dec, Frame(enc(i, chunk)) + rest) == Outcome(chunk + r.output, r.error)
  {
    var token := enc(i, chunk);
    var file := Frame(token) + rest;
    PackRoundTrip(|token|);
    assert file[..4] == Pack(|token|);
    assert file[4..4 + |token|] == token;
    assert file[4 + |token|..] == rest;
  }

  /** A frame cut short, but not to nothing, is reported. */
  lemma ReadCutFrame(enc: Encrypt, dec: Decrypt, i: nat, chunk: seq<Byte>, k: nat)
    requires Inverse(enc, dec) && 1 <= |chunk| <= CHUNK_SIZE && 0 < k < |Frame(enc(i, chunk))|
    ensures DecodeFile(dec, Frame(enc(i, chunk))[..k])
         == Outcome([], Some(if k < 4 then IncompleteHeader else IncompleteData))
  {
    var token := enc(i, chunk);
    PackRoundTrip(|token|);
    if k >= 4 {
      assert Frame(token)[..k][..4] == Pack(|token|);
    }
  }

  /** What decoding the first k bytes gives when the m-th chunk is the last complete one. */
  function CutOutcome(enc: Encrypt, i: nat, chunks: seq<seq<Byte>>, k: nat, m: nat): Outcome
    requires m <= |chunks|
  {
    var end := Boundary(enc, i, chunks, m);
    Outcome(Flatten(chunks[..m]), if k <= end then None else if k < end + 4 then Some(IncompleteHeader) else Some(IncompleteData))
  }

  /** Decoding a cut file, chunk by chunk. */
  function CutOut(enc: Encrypt, i: nat, chunks: seq<seq<Byte>>, k: nat): Outcome
    decreases |chunks|
  {
    if chunks == [] then Outcome([], None)
    else if k < |Frame(enc(i, chunks[0]))| then
      Outcome([], if k == 0 then None else if k < 4 then Some(IncompleteHeader) else Some(IncompleteData))
    else
      var r := CutOut(enc, i + 1, chunks[1..], k - |Frame(enc(i, chunks[0]))|);
      Outcome(chunks[0] + r.output, r.error)
  }

  lemma PrefixOfSum(a: seq<Byte>, b: seq<Byte>, k: nat)
    requires k <= |a| + |b|
    ensures (a + b)[..k] == if k < |a| then a[..k] else a + b[..k - |a|]
  {
  }

  /** A cut within the first frame. */
  lemma CutInFirst(enc: Encrypt, dec: Decrypt, i: nat, chunk: seq<Byte>, rest: seq<Byte>, file: seq<Byte>, k: nat)
    requires Inverse(enc, dec) && 1 <= |chunk| <= CHUNK_SIZE && file == Frame(enc(i, chunk)) + rest
    requires k < |Frame(enc(i, chunk))|
    ensures DecodeFile(dec, file[..k])
         == Outcome([], if k == 0 then None else if k < 4 then Some(IncompleteHeader) else Some(IncompleteData))
  {
    PrefixOfSum(Frame(enc(i, chunk)), rest, k);
    if k > 0 {
      ReadCutFrame(enc, dec, i, chunk, k);
    }
  }

  /** A cut behind the first frame. */
  lemma CutLater(enc: Encrypt, dec: Decrypt, i: nat, chunk: seq<Byte>, rest: seq<Byte>, file: seq<Byte>, k: nat)
    requires Inverse(enc, dec) && 1 <= |chunk| <= CHUNK_SIZE && file == Frame(enc(i, chunk)) + rest
    requires |Frame(enc(i, chunk))| <= k <= |Frame(enc(i, chunk))| + |rest|
    ensures var r := DecodeFile(dec, rest[..k - |Frame(enc(i, chunk))|]);
      DecodeFile(dec, file[..k]) == Outcome(chunk + r.output, r.error)
  {
    PrefixOfSum(Frame(enc(i, chunk)), rest, k);
    ReadFrameOf(enc, dec, i, chunk, rest[..k - |Frame(enc(i, chunk))|], file[..k]);
  }

  lemma ReadFrameOf(enc: Encrypt, dec: Decrypt, i: nat, chunk: seq<Byte>, rest: seq<Byte>, file: seq<Byte>)
    requires Inverse(enc, dec) && 1 <= |chunk| <= CHUNK_SIZE && file == Frame(enc(i, chunk)) + rest
    ensures var r := DecodeFile(dec, rest); DecodeFile(dec, file) == Outcome(chunk + r.output, r.error)
  {
    ReadFrame(enc, dec, i, chunk, rest);
  }

  lemma DecodeCutFirst(enc: Encrypt, dec: Decrypt, i: nat, chunks: seq<seq<Byte>>, k: nat)
    requires Inverse(enc, dec) && Readable(chunks) && chunks != [] && k < |Frame(enc(i, chunks[0]))|
    ensures k <= |FileOf(enc, i, chunks)|
    ensures DecodeFile(dec, FileOf(enc, i, chunks)[..k]) == CutOut(enc, i, chunks, k)
  {
    CutInFirst(enc, dec, i, chunks[0], FileOf(enc, i + 1, chunks[1..]), FileOf(enc, i, chunks), k);
  }

  lemma DecodeCutLater(enc: Encrypt, dec: Decrypt, i: nat, chunks: seq<seq<Byte>>, k: nat, k2: nat)
    requires Inverse(enc, dec) && Readable(chunks) && chunks != [] && k == |Frame(enc(i, chunks[0]))| + k2
    requires k2 <= |FileOf(enc, i + 1, chunks[1..])|
    requires DecodeFile(dec, FileOf(enc, i + 1, chunks[1..])[..k2]) == CutOut(enc, i + 1, chunks[1..], k2)
    ensures k <= |FileOf(enc, i, chunks)|
    ensures DecodeFile(dec, FileOf(enc, i, chunks)[..k]) == CutOut(enc, i, chunks, k)
  {
    CutLater(enc, dec, i, chunks[0], FileOf(enc, i + 1, chunks[1..]), FileOf(enc, i, chunks), k);
  }

  lemma FileSize(enc: Encrypt, i: nat, chunks: seq<seq<Byte>>)
    requires chunks != []
    ensures |FileOf(enc, i, chunks)| == |Frame(enc(i, chunks[0]))| + |FileOf(enc, i + 1, chunks[1..])|
  {
  }

  lemma {:induction false} DecodeCut(enc: Encrypt, dec: Decrypt, i: nat, chunks: seq<seq<Byte>>, k: nat)
    requires Inverse(enc, dec) && Readable(chunks) && k <= |FileOf(enc, i, chunks)|
    ensures DecodeFile(dec, FileOf(enc, i, chunks)[..k]) == CutOut(enc, i, chunks, k)
    decreases |chunks|
  {
    if chunks != [] {
      if k < |Frame(enc(i, chunks[0]))| {
        DecodeCutFirst(enc, dec, i, chunks, k);
      } else {
        var k2 := k - |Frame(enc(i, chunks[0]))|;
        FileSize(enc, i, chunks);
        DecodeCut(enc, dec, i + 1, chunks[1..], k2);
        DecodeCutLater(enc, dec, i, chunks, k, k2);
      }
    }
  }

  /** How many chunks are complete within the first k bytes. */
  function Complete(enc: Encrypt, i: nat, chunks: seq<seq<Byte>>, k: nat): (m: nat)
    ensures m <= |chunks|
    decreases |chunks|
  {
    if chunks == [] || k < |Frame(enc(i, chunks[0]))| then 0
    else 1 + Complete(enc, i + 1, chunks[1..], k - |Frame(enc(i, chunks[0]))|)
  }

  lemma {:induction false} CompleteIs(enc: Encrypt, i: nat, chunks: seq<seq<Byte>>, k: nat)
    requires k <= |FileOf(enc, i, chunks)|
    ensures var m := Complete(enc, i, chunks, k);
      && Boundary(enc, i, chunks, m) <= k && (m < |chunks| ==> k < Boundary(enc, i, chunks, m + 1))
      && CutOut(enc, i, chunks, k) == CutOutcome(enc, i, chunks, k, m)
    decreases |chunks|
  {
    if chunks != [] && |Frame(enc(i, chunks[0]))| <= k {
      var k2 := k - |Frame(enc(i, chunks[0]))|;
      CompleteIs(enc, i + 1, chunks[1..], k2);
      FlattenTake(chunks, Complete(enc, i + 1, chunks[1..], k2));
    } else {
      assert Flatten(chunks[..0]) == [];
    }
  }

  lemma FlattenTake(chunks: seq<seq<Byte>>, n: nat)
    requires chunks != [] && n <= |chunks[1..]|
    ensures Flatten(chunks[..n + 1]) == chunks[0] + Flatten(chunks[1..][..n])
  {
    assert chunks[..n + 1] == [chunks[0]] + chunks[1..][..n];
    FlattenCons(chunks[0], chunks[1..][..n]);
  }

  /** Cut the file anywhere: what is decoded is the chunks that are complete, and the cut is reported unless it
      falls between two chunks. */
  lemma Truncation(enc: Encrypt, dec: Decrypt, chunks: seq<seq<Byte>>, k: nat) returns (m: nat)
    requires Inverse(enc, dec) && Readable(chunks) && k <= |FileOf(enc, 0, chunks)|
    ensures m <= |chunks| && Boundary(enc, 0, chunks, m) <= k
    ensures m < |chunks| ==> k < Boundary(enc, 0, chunks, m + 1)
    ensures DecodeFile(dec, FileOf(enc, 0, chunks)[..k]) == CutOutcome(enc, 0, chunks, k, m)
  {
    m := Complete(enc, 0, chunks, k);
    CompleteIs(enc, 0, chunks, k);
    DecodeCut(enc, dec, 0, chunks, k);
  }

  /** However the reads split the stream, decrypting the encrypted file gives the stream back. */
  lemma RoundTrip(enc: Encrypt, dec: Decrypt, chunks: seq<seq<Byte>>)
    requires Inverse(enc, dec) && Readable(chunks)
    ensures DecodeFile(dec, FileOf(enc, 0, chunks)) == Outcome(Flatten(chunks), None)
  {
    var file := FileOf(enc, 0, chunks);
    DecodeCut(enc, dec, 0, chunks, |file|);
    NothingCut(enc, 0, chunks);
    assert file[..|file|] == file;
  }

  lemma {:induction false} NothingCut(enc: Encrypt, i: nat, chunks: seq<seq<Byte>>)
    ensures CutOut(enc, i, chunks, |FileOf(enc, i, chunks)|) == Outcome(Flatten(chunks), None)
    decreases |chunks|
  {
    if chunks != [] {
      NothingCut(enc, i + 1, chunks[1..]);
      FlattenCons(chunks[0], chunks[1..]);
      assert chunks == [chunks[0]] + chunks[1..];
    }
  }

  lemma BadToken(dec: Decrypt, token: seq<Byte>, rest: seq<Byte>)
    requires dec(token).None? && |token| < 0x1_0000_0000
    ensures DecodeFile(dec, Frame(token) + rest) == Outcome([], Some(InvalidToken))
  {
    var file := Frame(token) + rest;
    PackRoundTrip(|token|);
    assert file[..4] == Pack(|token|) && file[4..4 + |token|] == token;
  }

  /** A token that cannot be decrypted ends the reading with the chunks before it and an error. */
  lemma {:induction false} CorruptChunk(enc: Encrypt, dec: Decrypt, i: nat, chunks: seq<seq<Byte>>, token: seq<Byte>,
                                        rest: seq<Byte>)
    requires Inverse(enc, dec) && Readable(chunks) && dec(token).None? && |token| < 0x1_0000_0000
    ensures DecodeFile(dec, FileOf(enc, i, chunks) + (Frame(token) + rest)) == Outcome(Flatten(chunks), Some(InvalidToken))
    decreases |chunks|
  {
    var tail := Frame(token) + rest;
    if chunks == [] {
      BadToken(dec, token, rest);
      assert FileOf(enc, i, chunks) + tail == tail;
    } else {
      CorruptChunk(enc, dec, i + 1, chunks[1..], token, rest);
      CorruptLater(enc, dec, i, chunks, tail);
    }
  }

  lemma CorruptLater(enc: Encrypt, dec: Decrypt, i: nat, chunks: seq<seq<Byte>>, tail: seq<Byte>)
    requires Inverse(enc, dec) && Readable(chunks) && chunks != []
    requires DecodeFile(dec, FileOf(enc, i + 1, chunks[1..]) + tail) == Outcome(Flatten(chunks[1..]), Some(InvalidToken))
    ensures DecodeFile(dec, FileOf(enc, i, chunks) + tail) == Outcome(Flatten(chunks), Some(InvalidToken))
  {
    var later := FileOf(enc, i + 1, chunks[1..]);
    Regroup(Frame(enc(i, chunks[0])), later, tail);
    ReadFrameOf(enc, dec, i, chunks[0], later + tail, FileOf(enc, i, chunks) + tail);
    FlattenCons(chunks[0], chunks[1..]);
    assert chunks == [chunks[0]] + chunks[1..];
  }

  // ----- A cipher that meets the assumptions -----

  /** The chunk, a mark, and zeros up to a token's length. */
  function PadEncrypt(i: nat, chunk: seq<Byte>): (token: seq<Byte>)
    ensures |token| == TokenLength(|chunk|)
  {
    chunk + [1] + Zeros(Padding(|chunk|))
  }

  function Padding(n: nat): (p: nat)
    ensures n + 1 + p == TokenLength(n)
  {
    TokenLength(n) - n - 1
  }

  function Zeros(n: nat): (z: seq<Byte>)
    ensures |z| == n
  {
    if n == 0 then [] else Zeros(n - 1) + [0]
  }

  function PadDecrypt(token: seq<Byte>): Option<seq<Byte>> {
    if token == [] then None
    else if Last(token) == 0 then PadDecrypt(Init(token))
    else if Last(token) == 1 then Some(Init(token))
    else None
  }

  lemma {:induction false} ZerosDropped(chunk: seq<Byte>, n: nat)
    ensures PadDecrypt(chunk + [1] + Zeros(n)) == Some(chunk)
  {
    var token := chunk + [1] + Zeros(n);
    if n == 0 {
      assert Last(token) == 1 && Init(token) == chunk;
    } else {
      assert Last(token) == 0 && Init(token) == chunk + [1] + Zeros(n - 1);
      ZerosDropped(chunk, n - 1);
    }
  }

  /** The assumptions about encryption can be met. */
  lemma InverseExists()
    ensures FernetLike(PadEncrypt, PadDecrypt) && Inverse(PadEncrypt, PadDecrypt)
  {
    forall i, chunk ensures PadDecrypt(PadEncrypt(i, chunk)) == Some(chunk) {
      PadInverse(i, chunk);
    }
    HeaderFits(PadEncrypt, PadDecrypt);
  }

  lemma PadInverse(i: nat, chunk: seq<Byte>)
    ensures PadDecrypt(PadEncrypt(i, chunk)) == Some(chunk)
  {
    ZerosDropped(chunk, Padding(|chunk|));
  }
}
