/** The chunked AES-256-GCM archive format: the export loop that frames a
    plaintext, the restore loop that opens the frames, and what an arbitrary
    byte stream can make the restore loop do. */
module ArchiveStream {
  import opened Common

  const CHUNK: nat := 4194304
  const NONCE: nat := 12
  const TAG: nat := 16
  const HEADER: nat := 4
  const MAX_PAYLOAD: nat := 4194304 + 1024

  // ---------------------------------------------------------------- AEAD

  /** One DEK, as the two operations the loops call. */
  datatype Aead = Aead(
    seal: (Bytes, Bytes, string) -> Bytes,
    open: (Bytes, Bytes, string) -> Option<Bytes>)

  /** A tuple that was sealed under the DEK. */
  datatype Sealed = Sealed(nonce: Bytes, aad: string, plain: Bytes)

  /** AEAD_AES_256_GCM of RFC 5116: a ciphertext is its plaintext plus a tag. */
  ghost predicate TagLaw(aead: Aead)
  {
    forall n, p, a :: |aead.seal(n, p, a)| == |p| + TAG
  }

  /** Ideal AEAD: what opens is exactly what was sealed. */
  ghost predicate Ideal(aead: Aead, log: set<Sealed>)
  {
    && TagLaw(aead)
    && (forall s | s in log :: aead.open(s.nonce, aead.seal(s.nonce, s.plain, s.aad), s.aad) == Some(s.plain))
    && (forall n, c, a | aead.open(n, c, a).Some? ::
          var p := aead.open(n, c, a).value;
          Sealed(n, a, p) in log && c == aead.seal(n, p, a))
  }

  // -------------------------------------------------------------- format

  /** The associated data that binds a chunk to its partition and position. */
  function Label(name: string, index: nat): string
  {
    name + ":" + Decimal(index)
  }

  lemma LabelInjective(name: string, i: nat, other: string, j: nat)
    requires Label(name, i) == Label(other, j)
    ensures name == other && i == j
  {
    DecimalIsDigits(i);
    DecimalIsDigits(j);
    assert ":" == [':'];
    LastSeparatorUnique(name, other, Decimal(i), Decimal(j), ':');
    DecimalInjective(i, j);
  }

  /** One export run: the partition, its plaintext and the nonces drawn. */
  datatype Run = Run(name: string, plain: Bytes, nonce: nat -> Bytes)

  ghost predicate NonceLaw(run: Run)
  {
    forall i: nat :: |run.nonce(i)| == NONCE
  }

  /** Number of chunks a plaintext is cut into; the last one may be short. */
  function Chunks(plain: Bytes): nat
  {
    (|plain| + CHUNK - 1) / CHUNK
  }

  /** Offset of the plaintext at which chunk `k` starts. */
  function Cut(plain: Bytes, k: nat): (c: nat)
    ensures c <= |plain|
  {
    if k * CHUNK <= |plain| then k * CHUNK else |plain|
  }

  lemma CutFacts(plain: Bytes, k: nat)
    ensures Cut(plain, k) <= Cut(plain, k + 1) <= Cut(plain, k) + CHUNK
    ensures k < Chunks(plain) <==> Cut(plain, k) < |plain|
    ensures k < Chunks(plain) ==> Cut(plain, k) == k * CHUNK && Cut(plain, k + 1) == Min(|plain|, k * CHUNK + CHUNK)
    ensures k == Chunks(plain) ==> Cut(plain, k) == |plain|
  {
  }

  /** Four mebibytes to a chunk, all full but the last, which is not empty. */
  lemma ChunkCountIff(plain: Bytes, k: nat)
    ensures Chunks(plain) == k <==> if plain == [] then k == 0 else (k - 1) * 4_194_304 < |plain| <= k * 4_194_304
  {
  }

  function ChunkAt(plain: Bytes, k: nat): Bytes
  {
    CutFacts(plain, k);
    plain[Cut(plain, k)..Cut(plain, k + 1)]
  }

  function SealedAt(run: Run, k: nat): Sealed
  {
    Sealed(run.nonce(k), Label(run.name, k), ChunkAt(run.plain, k))
  }

  function Payload(aead: Aead, s: Sealed): Bytes
  {
    s.nonce + aead.seal(s.nonce, s.plain, s.aad)
  }

  /** Length prefix, nonce, ciphertext and tag; a uint32 cast keeps the low four bytes. */
  function Frame(aead: Aead, s: Sealed): Bytes
  {
    BigEndian(|Payload(aead, s)|, HEADER) + Payload(aead, s)
  }

  /** The stream made of the run's first `k` frames. */
  function Wire(aead: Aead, run: Run, k: nat): Bytes
  {
    if k == 0 then [] else Wire(aead, run, k - 1) + Frame(aead, SealedAt(run, k - 1))
  }

  lemma FrameLength(aead: Aead, run: Run, k: nat)
    requires TagLaw(aead) && NonceLaw(run)
    ensures var n := |Payload(aead, SealedAt(run, k))|;
            n == |ChunkAt(run.plain, k)| + NONCE + TAG && n <= MAX_PAYLOAD < Pow256(HEADER)
    ensures |Frame(aead, SealedAt(run, k))| == |ChunkAt(run.plain, k)| + 32
  {
    CutFacts(run.plain, k);
  }

  /** A frame byte by byte: the length of what follows in four bytes, most significant first,
      the twelve nonce bytes, and the chunk sealed under its partition's name and position. */
  lemma FrameLayout(aead: Aead, run: Run, k: nat, chunk: Bytes)
    requires TagLaw(aead) && NonceLaw(run) && k * 4_194_304 < |run.plain|
    requires chunk == run.plain[k * 4_194_304..if |run.plain| <= (k + 1) * 4_194_304 then |run.plain| else (k + 1) * 4_194_304]
    ensures var f := Frame(aead, SealedAt(run, k));
            && |f| == 4 + 12 + |chunk| + 16
            && (f[0] as int) * 0x100_0000 + (f[1] as int) * 0x1_0000 + (f[2] as int) * 0x100 + f[3] as int == 12 + |chunk| + 16
            && f[4..] == run.nonce(k) + aead.seal(run.nonce(k), chunk, run.name + ":" + Decimal(k))
  {
    CutFacts(run.plain, k);
    FrameLength(aead, run, k);
    assert ChunkAt(run.plain, k) == chunk;
    var n := 12 + |chunk| + 16;
    FourBytes(n);
    assert Frame(aead, SealedAt(run, k)) == BigEndian(n, 4) + Payload(aead, SealedAt(run, k));
  }

  lemma FourBytes(n: nat)
    requires n < 0x1_0000_0000
    ensures var b := BigEndian(n, 4);
            (b[0] as int) * 0x100_0000 + (b[1] as int) * 0x1_0000 + (b[2] as int) * 0x100 + b[3] as int == n
  {
    var b1, b2, b3 := BigEndian(n / 256, 3), BigEndian(n / 256 / 256, 2), BigEndian(n / 256 / 256 / 256, 1);
    assert BigEndian(n, 4) == b1 + [n % 256];
    assert b1 == b2 + [n / 256 % 256];
    assert b2 == b3 + [n / 256 / 256 % 256];
    assert b3 == [] + [n / 256 / 256 / 256 % 256];
  }

  /** Stream length: the plaintext plus 32 bytes per chunk. */
  lemma {:induction false} WireLength(aead: Aead, run: Run, k: nat)
    requires TagLaw(aead) && NonceLaw(run)
    ensures |Wire(aead, run, k)| == Cut(run.plain, k) + 32 * k
  {
    if k > 0 {
      WireLength(aead, run, k - 1);
      FrameLength(aead, run, k - 1);
      CutFacts(run.plain, k - 1);
    }
  }

  lemma {:induction false} WirePrefix(aead: Aead, run: Run, j: nat, k: nat)
    requires j <= k
    ensures Wire(aead, run, j) <= Wire(aead, run, k)
  {
    if j < k {
      WirePrefix(aead, run, j, k - 1);
    }
  }

  // -------------------------------------------------------------- export

  /** What the export loop cannot control: the random source, the upload pipe
      and whether the plaintext pipe ends in an error instead of EOF. */
  datatype ExportEnv = ExportEnv(
    nonce: nat -> Bytes, randOk: nat -> bool, writeOk: nat -> bool, readFails: bool)

  datatype ExportOutcome = Exported | RandFailed | WriteFailed | ReadFailed

  ghost predicate EnvClean(env: ExportEnv, k: nat)
  {
    forall i: nat | i < k :: env.randOk(i) && env.writeOk(i)
  }

  /** Sealing and framing the next chunk of the plaintext extends the wire. */
  lemma ExportStep(aead: Aead, run: Run, k: nat, got: nat)
    requires got == Min(|run.plain| - Cut(run.plain, k), CHUNK)
    ensures got > 0 <==> k < Chunks(run.plain)
    ensures got > 0 ==> Cut(run.plain, k + 1) == Cut(run.plain, k) + got
    ensures got > 0 ==>
              Wire(aead, run, k + 1) ==
              Wire(aead, run, k)
              + Frame(aead, Sealed(run.nonce(k), Label(run.name, k), run.plain[Cut(run.plain, k)..Cut(run.plain, k) + got]))
    ensures 0 < got < CHUNK ==> k + 1 == Chunks(run.plain)
    ensures got == 0 && k <= Chunks(run.plain) ==> k == Chunks(run.plain)
  {
    CutFacts(run.plain, k);
    CutFacts(run.plain, k + 1);
  }

  /** One chunk: a fresh nonce, the sealed frame, and its upload. */
  method SendChunk(aead: Aead, name: string, k: nat, chunk: Bytes, env: ExportEnv)
    returns (frame: Bytes, fault: Option<ExportOutcome>)
    ensures fault == if !env.randOk(k) then Some(RandFailed) else if !env.writeOk(k) then Some(WriteFailed) else None
    ensures env.randOk(k) ==> frame == Frame(aead, Sealed(env.nonce(k), Label(name, k), chunk))
  {
    if !env.randOk(k) {
      return [], Some(RandFailed);
    }
    var nonce := env.nonce(k);
    var ct := aead.seal(nonce, chunk, Label(name, k));
    var payloadLen := |nonce| + |ct|;
    frame := BigEndian(payloadLen, HEADER) + (nonce + ct);
    fault := if env.writeOk(k) then None else Some(WriteFailed);
  }

  /** The first `k` chunks have been sealed, uploaded and hashed. */
  ghost predicate Exporting(aead: Aead, run: Run, env: ExportEnv, k: nat, pos: nat, wire: Bytes, hashed: Bytes, n: nat)
  {
    && k <= Chunks(run.plain) && pos == Cut(run.plain, k) <= |run.plain| && EnvClean(env, k)
    && wire == Wire(aead, run, k) && hashed == wire && n == |wire|
  }

  /** One turn: the next chunk is read, sealed, hashed and uploaded. */
  method ExportChunk(aead: Aead, name: string, plain: Bytes, env: ExportEnv, k: nat, pos: nat, got: nat,
                     wire: Bytes, hashed: Bytes, bytesWritten: nat)
    returns (fault: Option<ExportOutcome>, wire': Bytes, hashed': Bytes, bytesWritten': nat)
    requires Exporting(aead, Run(name, plain, env.nonce), env, k, pos, wire, hashed, bytesWritten)
    requires got == Min(|plain| - pos, CHUNK) && got > 0
    ensures fault.None? ==>
              Exporting(aead, Run(name, plain, env.nonce), env, k + 1, pos + got, wire', hashed', bytesWritten')
              && (got < CHUNK ==> k + 1 == Chunks(plain))
    ensures fault.Some? ==>
              wire' == wire && k < Chunks(plain) && !(env.randOk(k) && env.writeOk(k)) && !fault.value.Exported? && !fault.value.ReadFailed?
  {
    ExportStep(aead, Run(name, plain, env.nonce), k, got);
    wire', hashed', bytesWritten' := wire, hashed, bytesWritten;
    var frame;
    frame, fault := SendChunk(aead, name, k, plain[pos..pos + got], env);
    if fault == Some(RandFailed) {
      return;
    }
    hashed' := hashed + frame;
    bytesWritten' := bytesWritten + |frame|;
    if fault.Some? {
      return;
    }
    wire' := wire + frame;
  }

  lemma ExportBegins(aead: Aead, run: Run, env: ExportEnv)
    ensures Exporting(aead, run, env, 0, 0, [], [], 0)
  {
  }

  /** Once the plaintext is used up, everything is on the wire. */
  lemma ExportEnds(aead: Aead, run: Run, env: ExportEnv, k: nat, pos: nat, wire: Bytes, hashed: Bytes, n: nat)
    requires TagLaw(aead) && NonceLaw(run) && Exporting(aead, run, env, k, pos, wire, hashed, n) && k == Chunks(run.plain)
    ensures n == |wire| == |run.plain| + 32 * Chunks(run.plain)
  {
    CutFacts(run.plain, k);
    WireLength(aead, run, k);
  }

  /** Nothing is left exactly when every chunk has been sent. */
  lemma NothingLeft(aead: Aead, run: Run, env: ExportEnv, k: nat, pos: nat, wire: Bytes, hashed: Bytes, n: nat)
    requires Exporting(aead, run, env, k, pos, wire, hashed, n)
    ensures pos == |run.plain| <==> k == Chunks(run.plain)
  {
    CutFacts(run.plain, k);
  }

  method Export(aead: Aead, name: string, plain: Bytes, env: ExportEnv)
    returns (outcome: ExportOutcome, wire: Bytes, hashed: Bytes, bytesWritten: nat, ghost sent: nat)
    requires TagLaw(aead) && NonceLaw(Run(name, plain, env.nonce))
    ensures sent <= Chunks(plain) && wire == Wire(aead, Run(name, plain, env.nonce), sent)
    ensures outcome.Exported? <==> EnvClean(env, Chunks(plain)) && !env.readFails
    ensures outcome.Exported? || outcome.ReadFailed? ==> sent == Chunks(plain) && hashed == wire
    ensures outcome.Exported? || outcome.ReadFailed? ==>
              bytesWritten == |wire| == |plain| + 32 * Chunks(plain)
  {
    ghost var run := Run(name, plain, env.nonce);
    wire, hashed, bytesWritten, sent := [], [], 0, 0;
    var pos, chunkIndex: nat := 0, 0;
    var got: nat := CHUNK;
    ExportBegins(aead, run, env);
    while got == CHUNK
      invariant chunkIndex == sent && Exporting(aead, run, env, sent, pos, wire, hashed, bytesWritten)
      invariant got <= CHUNK && (got < CHUNK ==> sent == Chunks(plain))
      decreases |plain| - pos, got
    {
      NothingLeft(aead, run, env, sent, pos, wire, hashed, bytesWritten);
      got := if |plain| - pos < CHUNK then |plain| - pos else CHUNK;
      if got > 0 {
        var fault;
        fault, wire, hashed, bytesWritten := ExportChunk(aead, name, plain, env, chunkIndex, pos, got, wire, hashed, bytesWritten);
        if fault.Some? {
          return fault.value, wire, hashed, bytesWritten, sent;
        }
        chunkIndex, pos, sent := chunkIndex + 1, pos + got, sent + 1;
      }
    }
    ExportEnds(aead, run, env, sent, pos, wire, hashed, bytesWritten);
    outcome := if env.readFails then ReadFailed else Exported;
  }

  // ------------------------------------------------------------- restore

  /** Seen from the restore side, `run` is the one export run of its partition
      name: every other sealed tuple carries some other label. */
  ghost predicate OnlyRun(log: set<Sealed>, run: Run)
  {
    && (forall k: nat | k < Chunks(run.plain) :: SealedAt(run, k) in log)
    && (forall s, k: nat | s in log && s.aad == Label(run.name, k) ::
          k < Chunks(run.plain) && s == SealedAt(run, k))
  }

  /** All tuples sealed by a family of export runs under the same DEK. */
  ghost function LogOf(runs: seq<Run>): set<Sealed>
  {
    set j, k | 0 <= j < |runs| && 0 <= k < Chunks(runs[j].plain) :: SealedAt(runs[j], k)
  }

  /** Archiving any number of differently named partitions under one DEK leaves
      each of them the only run of its name, so frames never cross over. */
  lemma PartitionsStayApart(runs: seq<Run>, j: nat)
    requires j < |runs|
    requires forall a, b | 0 <= a < b < |runs| :: runs[a].name != runs[b].name
    ensures OnlyRun(LogOf(runs), runs[j])
  {
    forall s, k: nat | s in LogOf(runs) && s.aad == Label(runs[j].name, k)
      ensures k < Chunks(runs[j].plain) && s == SealedAt(runs[j], k)
    {
      var a, i :| 0 <= a < |runs| && 0 <= i < Chunks(runs[a].plain) && s == SealedAt(runs[a], i);
      LabelInjective(runs[a].name, i, runs[j].name, k);
      assert a == j;
    }
  }

  datatype RestoreOutcome = Restored | BadKey | Tampered | ReaderError | WriterError

  /** What the restore loop cannot control: whether its reader ends in an error
      instead of EOF, and which plaintext writes fail. */
  datatype RestoreEnv = RestoreEnv(readFails: bool, writeOk: nat -> bool)

  /** A stream that is exactly some number of whole leading frames of the run. */
  ghost predicate FrameAligned(aead: Aead, run: Run, stream: Bytes)
  {
    exists k: nat :: k <= Chunks(run.plain) && stream == Wire(aead, run, k)
  }

  lemma CancelPrefix(before: Bytes, f: Bytes, rest: Bytes)
    requires before + f <= before + rest
    ensures f <= rest
  {
    assert forall i | 0 <= i < |f| :: f[i] == (before + f)[|before| + i] == (before + rest)[|before| + i] == rest[i];
  }

  lemma NextFrameOnWire(aead: Aead, run: Run, stream: Bytes, rest: Bytes, k: nat)
    requires FrameAligned(aead, run, stream)
    requires rest != [] && stream == Wire(aead, run, k) + rest
    ensures k < Chunks(run.plain) && Frame(aead, SealedAt(run, k)) <= rest
  {
    var n: nat :| n <= Chunks(run.plain) && stream == Wire(aead, run, n);
    LongerWire(aead, run, k, n, rest);
    NextFrame(aead, run, rest, k, n);
  }

  lemma NextFrame(aead: Aead, run: Run, rest: Bytes, k: nat, n: nat)
    requires k < n && Wire(aead, run, n) == Wire(aead, run, k) + rest
    ensures Frame(aead, SealedAt(run, k)) <= rest
  {
    WirePrefix(aead, run, k + 1, n);
    CancelPrefix(Wire(aead, run, k), Frame(aead, SealedAt(run, k)), rest);
  }

  lemma LongerWire(aead: Aead, run: Run, k: nat, n: nat, rest: Bytes)
    requires rest != [] && Wire(aead, run, n) == Wire(aead, run, k) + rest
    ensures k < n
  {
    if n <= k {
      WirePrefix(aead, run, n, k);
    }
  }

  /** One turn of the restore loop on the unread rest of the stream. */
  datatype FrameRead = Chunk(plain: Bytes, used: nat) | End | Fault(outcome: RestoreOutcome)

  /** A payload that opens at position `k` is the run's own. */
  lemma OpenedPayload(aead: Aead, log: set<Sealed>, run: Run, k: nat, header: Bytes, payload: Bytes)
    requires Ideal(aead, log) && OnlyRun(log, run)
    requires |header| == HEADER && FromBigEndian(header) == |payload| >= NONCE
    requires aead.open(payload[..NONCE], payload[NONCE..], Label(run.name, k)).Some?
    ensures k < Chunks(run.plain)
    ensures aead.open(payload[..NONCE], payload[NONCE..], Label(run.name, k)).value == ChunkAt(run.plain, k)
    ensures header + payload == Frame(aead, SealedAt(run, k))
  {
    var p := aead.open(payload[..NONCE], payload[NONCE..], Label(run.name, k)).value;
    var s := Sealed(payload[..NONCE], Label(run.name, k), p);
    assert s in log && s == SealedAt(run, k);
    assert payload == Payload(aead, s);
    BigEndianEncodes(header);
  }

  /** The run's own frame passes every check the loop makes on it. */
  lemma OwnFrame(aead: Aead, log: set<Sealed>, run: Run, k: nat, rest: Bytes)
    requires Ideal(aead, log) && OnlyRun(log, run) && NonceLaw(run) && k < Chunks(run.plain)
    requires Frame(aead, SealedAt(run, k)) <= rest
    ensures HEADER <= |rest|
    ensures var n := FromBigEndian(rest[..HEADER]);
            && NONCE + TAG <= n <= MAX_PAYLOAD && HEADER + n <= |rest|
            && aead.open(rest[HEADER..HEADER + n][..NONCE], rest[HEADER..HEADER + n][NONCE..], Label(run.name, k)).Some?
  {
    FrameLength(aead, run, k);
    var s := SealedAt(run, k);
    var payload := Payload(aead, s);
    BigEndianDecodes(|payload|, HEADER);
    assert rest[..HEADER] == Frame(aead, s)[..HEADER] == BigEndian(|payload|, HEADER);
    assert rest[HEADER..HEADER + |payload|] == Frame(aead, s)[HEADER..] == payload;
    assert payload[..NONCE] == s.nonce && payload[NONCE..] == aead.seal(s.nonce, s.plain, s.aad);
  }

  method ReadFrame(aead: Aead, rest: Bytes, name: string, index: nat, readFails: bool,
                   ghost log: set<Sealed>, ghost run: Run)
    returns (r: FrameRead)
    requires Ideal(aead, log) && OnlyRun(log, run) && NonceLaw(run) && run.name == name
    ensures r.End? <==> rest == [] && !readFails
    ensures r.Fault? ==> (r.outcome == Tampered && rest != []) || (r.outcome == ReaderError && readFails)
    ensures r.Chunk? ==> HEADER < r.used <= |rest| && index < Chunks(run.plain)
    ensures r.Chunk? ==> r.plain == ChunkAt(run.plain, index) && rest[..r.used] == Frame(aead, SealedAt(run, index))
    ensures index < Chunks(run.plain) && Frame(aead, SealedAt(run, index)) <= rest ==> r.Chunk?
  {
    if index < Chunks(run.plain) && Frame(aead, SealedAt(run, index)) <= rest {
      OwnFrame(aead, log, run, index, rest);
    }
    if |rest| < HEADER {
      return if readFails then Fault(ReaderError) else if |rest| == 0 then End else Fault(Tampered);
    }
    var payloadLen := FromBigEndian(rest[..HEADER]);
    if payloadLen < NONCE + TAG {
      return Fault(Tampered);
    }
    if payloadLen > MAX_PAYLOAD {
      return Fault(Tampered);
    }
    if |rest| - HEADER < payloadLen {
      return Fault(if readFails then ReaderError else Tampered);
    }
    var payload := rest[HEADER..HEADER + payloadLen];
    var chunk := aead.open(payload[..NONCE], payload[NONCE..], Label(name, index));
    if chunk.None? {
      return Fault(Tampered);
    }
    OpenedPayload(aead, log, run, index, rest[..HEADER], payload);
    assert rest[..HEADER + payloadLen] == rest[..HEADER] + payload;
    r := Chunk(chunk.value, HEADER + payloadLen);
  }

  /** The first `k` frames are decoded and `rest` is still to come. */
  ghost predicate DecodedTo(aead: Aead, run: Run, stream: Bytes, out: Bytes, rest: Bytes, k: nat)
  {
    stream == Wire(aead, run, k) + rest && k <= Chunks(run.plain) && out == run.plain[..Cut(run.plain, k)]
  }

  lemma RestoreStep(aead: Aead, run: Run, stream: Bytes, out: Bytes, rest: Bytes, k: nat, used: nat)
    requires DecodedTo(aead, run, stream, out, rest, k) && k < Chunks(run.plain)
    requires used <= |rest| && rest[..used] == Frame(aead, SealedAt(run, k))
    ensures DecodedTo(aead, run, stream, out + ChunkAt(run.plain, k), rest[used..], k + 1)
  {
    assert rest == rest[..used] + rest[used..];
    CutFacts(run.plain, k);
  }

  /** One turn of the decoder. */
  method NextChunk(aead: Aead, ghost stream: Bytes, ghost out: Bytes, rest: Bytes, name: string, k: nat, readFails: bool,
                   ghost log: set<Sealed>, ghost run: Run)
    returns (r: FrameRead)
    requires Ideal(aead, log) && OnlyRun(log, run) && NonceLaw(run) && run.name == name
    requires DecodedTo(aead, run, stream, out, rest, k)
    ensures r.End? ==> stream == Wire(aead, run, k) && !readFails
    ensures r.Fault? ==> (r.outcome == Tampered && !FrameAligned(aead, run, stream)) || (r.outcome == ReaderError && readFails)
    ensures r.Chunk? ==> 0 < r.used <= |rest| && DecodedTo(aead, run, stream, out + r.plain, rest[r.used..], k + 1)
  {
    r := ReadFrame(aead, rest, name, k, readFails, log, run);
    if FrameAligned(aead, run, stream) && rest != [] {
      NextFrameOnWire(aead, run, stream, rest, k);
    }
    if r.Chunk? {
      RestoreStep(aead, run, stream, out, rest, k, r.used);
    }
  }

  /** `DecodeStream` over an arbitrary byte stream.  What it wrote is always a
      chunk-aligned prefix of the archived plaintext, and what it accepts are
      exactly the frame-aligned prefixes of the archived stream. */
  method DecodeStream(aead: Aead, dekLength: nat, stream: Bytes, name: string, env: RestoreEnv,
                      ghost log: set<Sealed>, ghost run: Run)
    returns (outcome: RestoreOutcome, out: Bytes, chunkIndex: nat)
    requires Ideal(aead, log) && OnlyRun(log, run) && NonceLaw(run) && run.name == name
    ensures chunkIndex <= Chunks(run.plain) && out == run.plain[..Cut(run.plain, chunkIndex)]
    ensures outcome.BadKey? <==> dekLength != 32
    ensures !outcome.BadKey? ==> Wire(aead, run, chunkIndex) <= stream
    ensures outcome.Restored? ==> stream == Wire(aead, run, chunkIndex) && !env.readFails
    ensures (&& FrameAligned(aead, run, stream) && dekLength == 32 && !env.readFails
             && forall i: nat :: env.writeOk(i)) ==> outcome.Restored?
    ensures outcome.Tampered? ==> !FrameAligned(aead, run, stream)
    ensures outcome.ReaderError? ==> env.readFails
    ensures outcome.WriterError? ==> exists i: nat :: !env.writeOk(i)
  {
    out, chunkIndex := [], 0;
    if dekLength != 32 {
      return BadKey, out, chunkIndex;
    }
    var rest := stream;
    while true
      invariant DecodedTo(aead, run, stream, out, rest, chunkIndex)
      decreases |rest|
    {
      var r := NextChunk(aead, stream, out, rest, name, chunkIndex, env.readFails, log, run);
      if r.End? {
        return Restored, out, chunkIndex;
      } else if r.Fault? {
        return r.outcome, out, chunkIndex;
      } else if !env.writeOk(chunkIndex) {
        return WriterError, out, chunkIndex;
      }
      out, rest, chunkIndex := out + r.plain, rest[r.used..], chunkIndex + 1;
    }
  }

  /** Export then restore is the identity on every plaintext and name. */
  method ExportThenRestore(aead: Aead, name: string, plain: Bytes, env: ExportEnv, ghost log: set<Sealed>)
    returns (out: Bytes, bytesWritten: nat)
    requires var run := Run(name, plain, env.nonce);
             Ideal(aead, log) && OnlyRun(log, run) && NonceLaw(run)
    requires EnvClean(env, Chunks(plain)) && !env.readFails
    ensures out == plain
    ensures bytesWritten == |plain| + 32 * Chunks(plain)
  {
    ghost var run := Run(name, plain, env.nonce);
    var exported, wire, hashed, n, sent := Export(aead, name, plain, env);
    var outcome, restored, count := DecodeStream(aead, 32, wire, name, RestoreEnv(false, (i: nat) => true), log, run);
    assert FrameAligned(aead, run, wire);
    WireLength(aead, run, count);
    WireLength(aead, run, Chunks(plain));
    CutFacts(plain, count);
    out, bytesWritten := restored, n;
    CutFacts(plain, Chunks(plain));
  }

  /** The format itself does not detect a dropped tail: the decoder accepts an archived
      stream cut at any frame boundary and yields less plaintext. */
  method TruncationIsAccepted(aead: Aead, run: Run, k: nat, ghost log: set<Sealed>)
    returns (outcome: RestoreOutcome, out: Bytes)
    requires Ideal(aead, log) && OnlyRun(log, run) && NonceLaw(run)
    requires k < Chunks(run.plain)
    ensures outcome == Restored && out == run.plain[..k * CHUNK] && |out| < |run.plain|
  {
    var stream := Wire(aead, run, k);
    assert FrameAligned(aead, run, stream);
    var count;
    outcome, out, count := DecodeStream(aead, 32, stream, run.name, RestoreEnv(false, (i: nat) => true), log, run);
    CutFacts(run.plain, k);
    WireLength(aead, run, count);
    WireLength(aead, run, k);
    CutFacts(run.plain, count);
  }

  // ------------------------------------------------------ the checksum gate

  datatype Restore = ChecksumMismatch | Decoded(outcome: RestoreOutcome, out: Bytes)

  /** The restore workflow: the stored object is hashed and compared with the sidecar
      before it is downloaded again and decoded. While the object stays as it was
      verified, a restore that succeeds yields the archived plaintext in full, or the
      object collides with the archived stream. */
  method RestoreArchive(aead: Aead, h: Bytes -> string, sidecar: string, verified: Bytes, downloaded: Bytes,
                        dekLength: nat, name: string, env: RestoreEnv, ghost log: set<Sealed>, ghost run: Run)
    returns (r: Restore)
    requires Ideal(aead, log) && OnlyRun(log, run) && NonceLaw(run) && run.name == name
    requires sidecar == h(Wire(aead, run, Chunks(run.plain)))
    ensures r.ChecksumMismatch? <==> h(verified) != h(Wire(aead, run, Chunks(run.plain)))
    ensures r.Decoded? && r.outcome.Restored? && downloaded == verified ==>
              var wire := Wire(aead, run, Chunks(run.plain));
              r.out == run.plain || (downloaded != wire && h(downloaded) == h(wire))
  {
    var actual := h(verified);
    if actual != sidecar {
      return ChecksumMismatch;
    }
    var outcome, out, count := DecodeStream(aead, dekLength, downloaded, name, env, log, run);
    if downloaded == Wire(aead, run, Chunks(run.plain)) {
      SameWire(aead, run, count, Chunks(run.plain));
    }
    r := Decoded(outcome, out);
  }

  /** Streams of different frame counts have different lengths. */
  lemma SameWire(aead: Aead, run: Run, j: nat, k: nat)
    requires TagLaw(aead) && NonceLaw(run) && j <= k == Chunks(run.plain)
    ensures Wire(aead, run, j) == Wire(aead, run, k) ==> run.plain[..Cut(run.plain, j)] == run.plain
  {
    WireLength(aead, run, j);
    WireLength(aead, run, k);
    CutFacts(run.plain, k);
  }

  /** Archive, let the stored object become anything at all, restore: the sidecar that the
      export wrote admits only the object it exported, up to collisions. */
  method ArchiveThenRestore(aead: Aead, h: Bytes -> string, name: string, plain: Bytes, env: ExportEnv,
                            tamper: Bytes -> Bytes, restoreEnv: RestoreEnv, ghost log: set<Sealed>)
    returns (r: Restore, ghost wire: Bytes)
    requires var run := Run(name, plain, env.nonce);
             Ideal(aead, log) && OnlyRun(log, run) && NonceLaw(run)
    requires EnvClean(env, Chunks(plain)) && !env.readFails
    ensures wire == Wire(aead, Run(name, plain, env.nonce), Chunks(plain))
    ensures r.ChecksumMismatch? <==> h(tamper(wire)) != h(wire)
    ensures r.Decoded? && r.outcome.Restored? ==> r.out == plain || (tamper(wire) != wire && h(tamper(wire)) == h(wire))
  {
    ghost var run := Run(name, plain, env.nonce);
    var exported, sent, hashed, n, count := Export(aead, name, plain, env);
    wire := sent;
    var sidecar, stored := h(hashed), tamper(sent);
    r := RestoreArchive(aead, h, sidecar, stored, stored, 32, name, restoreEnv, log, run);
  }
}
