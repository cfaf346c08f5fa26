/**
 Streaming a signed image into the update slot: the verifier, the download
 loop, and the writer that gathers reads into flash blocks.
 */
module Download {
  import opened Bytes
  import M = Manifest

  // ---- The body as the connection delivers it --------------------------------

  /** One read of the body: some bytes (none at the end), or a failure. */
  datatype Read = Data(bytes: seq<byte>) | Broken

  /** The bytes that arrive before the end or a failure. */
  function Arrived(input: seq<Read>): seq<byte> {
    if input == [] || input[0].Broken? || input[0].bytes == [] then []
    else input[0].bytes + Arrived(input[1..])
  }

  /** The body ends without a failure. */
  predicate Complete(input: seq<Read>) {
    input == [] || (input[0].Data? && (input[0].bytes == [] || Complete(input[1..])))
  }

  // ---- Padding ---------------------------------------------------------------

  function Erased(n: nat): (s: seq<byte>)
    ensures |s| == n && forall i :: 0 <= i < n ==> s[i] == 0xFF
  {
    seq(n, _ => 0xFF)
  }

  /** `image` filled up with erased bytes to a whole number of blocks. */
  ghost predicate Padded(s: seq<byte>, image: seq<byte>, block: nat)
    requires block > 0
  {
    && |image| <= |s| < |image| + block
    && |s| % block == 0
    && s == image + Erased(|s| - |image|)
  }

  // ---- The update slot -------------------------------------------------------

  /** The update partition. A write fails outside the partition or at a faulty offset. */
  class Slot {
    const cells: array<byte>
    const faulty: nat -> bool

    constructor (size: nat, faulty: nat -> bool)
      ensures fresh(cells) && cells.Length == size
    {
      cells := new byte[size];
      this.faulty := faulty;
    }

    method WriteFirmware(offset: nat, block: array<byte>) returns (ok: bool)
      requires block != cells
      modifies cells
      ensures ok <==> offset + block.Length <= cells.Length && !faulty(offset)
      ensures ok ==> cells[..] == old(cells[..offset]) + block[..] + old(cells[offset + block.Length..])
      ensures !ok ==> cells[..] == old(cells[..])
    {
      if offset + block.Length > cells.Length || faulty(offset) {
        return false;
      }
      forall i | 0 <= i < block.Length {
        cells[offset + i] := block[i];
      }
      return true;
    }
  }

  /** No write into this slot fails for a fault of the flash. */
  ghost predicate Healthy(slot: Slot) {
    forall o: nat :: !slot.faulty(o)
  }

  datatype WriteError = TooLarge | Flash

  /** Collects pieces of any length into blocks of the flash write size. */
  class AlignedWriter {
    const slot: Slot
    const buf: array<byte>
    var len: nat
    var offset: nat
    /** Everything written so far. */
    ghost var taken: seq<byte>

    ghost predicate Valid()
      reads this, buf, slot.cells
    {
      && buf.Length > 0 && buf != slot.cells
      && len < buf.Length && offset <= slot.cells.Length && offset % buf.Length == 0
      && taken == slot.cells[..offset] + buf[..len]
    }

    constructor (slot: Slot, blockSize: nat)
      requires blockSize > 0
      ensures Valid() && taken == [] && this.slot == slot && buf.Length == blockSize && fresh(buf)
    {
      this.slot := slot;
      buf := new byte[blockSize](_ => 0xFF);
      len, offset, taken := 0, 0, [];
    }

    /** Writes the full block out and starts an empty one. */
    method FlushBlock() returns (ok: bool)
      requires buf.Length > 0 && buf != slot.cells && len == buf.Length
      requires offset <= slot.cells.Length && offset % buf.Length == 0
      modifies this`len, this`offset, buf, slot.cells
      ensures ok ==> len == 0 && offset == old(offset) + buf.Length <= slot.cells.Length && offset % buf.Length == 0
      ensures ok ==> slot.cells[..offset] == old(slot.cells[..offset]) + old(buf[..])
      ensures slot.cells[..old(offset)] == old(slot.cells[..offset])
      ensures Healthy(slot) && old(offset) + buf.Length <= slot.cells.Length ==> ok
    {
      ok := slot.WriteFirmware(offset, buf);
      if !ok {
        return;
      }
      NextMultiple(offset, buf.Length);
      assert slot.cells[..offset + buf.Length] == old(slot.cells[..offset]) + buf[..];
      offset := offset + buf.Length;
      len := 0;
      forall i | 0 <= i < buf.Length {
        buf[i] := 0xFF;
      }
    }

    method Write(data: seq<byte>) returns (ok: bool)
      requires Valid()
      modifies this`len, this`offset, this`taken, buf, slot.cells
      ensures ok ==> Valid() && taken == old(taken) + data
      ensures Healthy(slot) && |old(taken)| + |data| <= slot.cells.Length ==> ok
    {
      var rest := data;
      while rest != []
        invariant Valid() && taken + rest == old(taken) + data
        decreases |rest|
      {
        var n := if buf.Length - len < |rest| then buf.Length - len else |rest|;
        Fill(rest[..n]);
        if len == buf.Length {
          var flushed := FlushBlock();
          if !flushed {
            return false;
          }
        }
        taken := taken + rest[..n];
        assert taken + rest[n..] == old(taken) + data;
        rest := rest[n..];
      }
      return true;
    }

    /** `copy_from_slice` behind the bytes already gathered. */
    method Fill(piece: seq<byte>)
      requires len + |piece| <= buf.Length
      modifies this`len, buf
      ensures len == old(len) + |piece| && buf[..len] == old(buf[..len]) + piece
    {
      forall i | 0 <= i < |piece| {
        buf[len + i] := piece[i];
      }
      len := len + |piece|;
    }

    /** Writes the last partial block, padded with erased bytes. */
    method Finish() returns (ok: bool)
      requires Valid()
      modifies this`len, this`offset, buf, slot.cells
      ensures ok ==> offset <= slot.cells.Length && Padded(slot.cells[..offset], taken, buf.Length)
      ensures Healthy(slot) && |taken| <= slot.cells.Length && slot.cells.Length % buf.Length == 0 ==> ok
    {
      if len > 0 {
        var used := len;
        if offset + len <= slot.cells.Length && slot.cells.Length % buf.Length == 0 {
          WholeBlockFits(offset, slot.cells.Length, buf.Length);
        }
        Fill(Erased(buf.Length - len));
        ok := FlushBlock();
        assert ok ==> slot.cells[..offset] == taken + Erased(buf.Length - used);
      } else {
        assert slot.cells[..offset] == taken + Erased(0);
        return true;
      }
    }
  }

  lemma WholeBlockFits(offset: nat, size: nat, block: nat)
    requires block > 0 && offset % block == 0 && size % block == 0 && offset < size
    ensures offset + block <= size
  {
    var p, q := offset / block, size / block;
    assert block * p == offset && block * q == size;
    assert block * (q - p) == size - offset;
    Multiples(block, q - p);
  }

  lemma NextMultiple(a: nat, n: nat)
    requires n > 0 && a % n == 0
    ensures (a + n) % n == 0
  {
    var q, q', r := a / n, (a + n) / n, (a + n) % n;
    assert n * q == a && n * q' + r == a + n;
    assert n * (q + 1 - q') == r;
    Multiples(n, q + 1 - q');
  }

  /** A multiple of n is 0 or at least n away from it. */
  lemma Multiples(n: nat, k: int)
    ensures k >= 1 ==> n * k >= n
    ensures k == 0 ==> n * k == 0
    ensures k <= -1 ==> n * k + n <= 0
  {
  }

  // ---- Verifying while streaming ---------------------------------------------

  type Sha = seq<byte> -> seq<byte>

  class ImageVerifier {
    const sha: Sha
    const expectedSize: u32
    const expectedSha: seq<byte>
    var received: nat
    /** What the hasher has absorbed. */
    var hashed: seq<byte>

    constructor (sha: Sha, m: M.Manifest)
      ensures this.sha == sha && expectedSize == m.imageSize && expectedSha == m.sha256
      ensures received == 0 && hashed == []
    {
      this.sha, expectedSize, expectedSha, received, hashed := sha, m.imageSize, m.sha256, 0, [];
    }

    /** Takes the next part of the image, refusing it as soon as the image grows too long. */
    method Update(data: seq<byte>) returns (r: Option<M.Error>)
      requires received == |hashed| <= expectedSize
      modifies this`received, this`hashed
      ensures r == if old(|hashed|) + |data| > expectedSize then Some(M.SizeMismatch) else None
      ensures r.None? ==> hashed == old(hashed) + data && received == |hashed| <= expectedSize
      ensures r.Some? ==> hashed == old(hashed) && received == old(received)
    {
      var total := received + |data|;
      if |data| >= 0x1_0000_0000 || total >= 0x1_0000_0000 || total > expectedSize {
        return Some(M.SizeMismatch);
      }
      hashed := hashed + data;
      received := total;
      return None;
    }

    method Finish() returns (r: Option<M.Error>)
      requires received == |hashed|
      ensures r.None? <==> |hashed| == expectedSize && sha(hashed) == expectedSha
      ensures r.Some? ==> r.value == if |hashed| != expectedSize then M.SizeMismatch else M.HashMismatch
    {
      if received != expectedSize {
        return Some(M.SizeMismatch);
      }
      if sha(hashed) != expectedSha {
        return Some(M.HashMismatch);
      }
      return None;
    }
  }

  // ---- The download loop -----------------------------------------------------

  datatype OtaError =
    | ServerError(code: nat)
    | MissingManifest
    | ManifestError(e: M.Error)
    | TargetMismatch
    | ReadError
    | FlashError(w: WriteError)

  datatype Outcome = Fetched(manifest: M.Manifest) | Failed(error: OtaError)

  /** The device's trust anchors and primitives. */
  datatype Env = Env(crypto: M.Crypto, policy: M.Policy, utf8: M.Utf8, sha: Sha)

  /** A download response: HTTP status, manifest header if any, and the body. */
  datatype Response = Response(status: nat, header: Option<seq<byte>>, body: seq<Read>)

  /** What the loop may stream: the manifest that passed every check before the first byte. */
  function Admitted(env: Env, resp: Response, targetBuild: u64): (r: Outcome)
    ensures r.Fetched? ==> r.manifest.buildId == targetBuild
  {
    if resp.status != 200 then Failed(ServerError(resp.status))
    else
      match resp.header
      case None => Failed(MissingManifest)
      case Some(hex) =>
        match M.FromHex(hex, env.utf8)
        case Err(e) => Failed(ManifestError(e))
        case Ok(signed) =>
          match M.Check(env.crypto, env.policy, signed)
          case Err(e) => Failed(ManifestError(e))
          case Ok(m) => if m.buildId != targetBuild then Failed(TargetMismatch) else Fetched(m)
  }

  /** The image a manifest describes. */
  ghost predicate Describes(env: Env, m: M.Manifest, image: seq<byte>) {
    |image| == m.imageSize && env.sha(image) == m.sha256
  }

  /** The slot is large enough for the image an admitted manifest announces. */
  predicate RoomFor(env: Env, resp: Response, targetBuild: u64, slot: Slot) {
    Admitted(env, resp, targetBuild).Fetched? ==> Admitted(env, resp, targetBuild).manifest.imageSize <= slot.cells.Length
  }

  /** An admitted manifest, and a body that ends cleanly with the image it describes. */
  ghost predicate Deliverable(env: Env, resp: Response, targetBuild: u64, activeSize: nat) {
    && Admitted(env, resp, targetBuild).Fetched?
    && Complete(resp.body)
    && Describes(env, Admitted(env, resp, targetBuild).manifest, Arrived(resp.body))
    && |Arrived(resp.body)| <= activeSize
  }

  /**
   `download` into an aligned writer that refuses images over `activeSize`.
   `handed` is everything passed to the flash callback.
   */
  method Download(env: Env, resp: Response, targetBuild: u64, writer: AlignedWriter, activeSize: nat)
    returns (r: Outcome, ghost handed: seq<byte>)
    requires writer.Valid() && writer.taken == []
    modifies writer`len, writer`offset, writer`taken, writer.buf, writer.slot.cells
    ensures handed <= Arrived(resp.body)
    ensures Admitted(env, resp, targetBuild).Failed? ==> handed == [] && r == Admitted(env, resp, targetBuild)
    ensures Admitted(env, resp, targetBuild).Fetched? ==> |handed| <= Admitted(env, resp, targetBuild).manifest.imageSize
    ensures r.Fetched? ==>
              && r == Admitted(env, resp, targetBuild)
              && handed == Arrived(resp.body)
              && Describes(env, r.manifest, handed)
              && |handed| <= activeSize
              && writer.Valid() && writer.taken == handed
    ensures Healthy(writer.slot) && RoomFor(env, resp, targetBuild, writer.slot) ==>
              (r.Fetched? <==> Deliverable(env, resp, targetBuild, activeSize))
  {
    hide M.FromHex, M.Check;
    handed := [];
    var admitted := Admitted(env, resp, targetBuild);
    if admitted.Failed? {
      return admitted, [];
    }
    var m := admitted.manifest;
    var verifier := new ImageVerifier(env.sha, m);
    var rest := resp.body;
    var offset := 0;
    assert Deliverable(env, resp, targetBuild, activeSize) ==>
        Complete(resp.body) && |Arrived(resp.body)| == m.imageSize <= activeSize;
    while true
      invariant handed + Arrived(rest) == Arrived(resp.body) && (Complete(rest) <==> Complete(resp.body))
      invariant verifier.hashed == handed == writer.taken && verifier.received == |handed| == offset
      invariant |handed| <= m.imageSize && |handed| <= activeSize
      invariant writer.Valid()
      decreases |rest|
    {
      hide Deliverable, Describes, Admitted;
      if rest == [] {
        break;
      }
      if rest[0].Broken? {
        return Failed(ReadError), handed;
      }
      var chunk := rest[0].bytes;
      if chunk == [] {
        break;
      }
      assert handed + (chunk + Arrived(rest[1..])) == handed + chunk + Arrived(rest[1..]);
      var bad := verifier.Update(chunk);
      if bad.Some? {
        return Failed(ManifestError(bad.value)), handed;
      }
      if offset + |chunk| > activeSize {
        return Failed(FlashError(TooLarge)), handed + chunk;
      }
      var written := writer.Write(chunk);
      if !written {
        return Failed(FlashError(Flash)), handed + chunk;
      }
      handed := handed + chunk;
      offset := offset + |chunk|;
      rest := rest[1..];
    }
    assert handed + [] == handed;
    var bad := verifier.Finish();
    if bad.Some? {
      return Failed(ManifestError(bad.value)), handed;
    }
    return Fetched(m), handed;
  }

  /**
   The end of `poll_and_update`: only after the download and the last block
   succeeded may the slot be marked, and then it holds exactly the signed image
   of the target build, padded with erased bytes. On sound flash it may be
   marked exactly if the whole signed image arrived and fits.
   */
  method FetchAndFinish(env: Env, resp: Response, targetBuild: u64, slot: Slot, blockSize: nat, activeSize: nat)
    returns (mayMark: Option<M.Manifest>, ghost end: nat)
    requires blockSize > 0
    modifies slot.cells
    ensures mayMark.Some? ==>
              && var m := mayMark.value;
              && Admitted(env, resp, targetBuild) == Fetched(m) && m.buildId == targetBuild
              && Describes(env, m, Arrived(resp.body)) && m.imageSize <= activeSize
              && end <= slot.cells.Length
              && Padded(slot.cells[..end], Arrived(resp.body), blockSize)
    ensures Healthy(slot) && RoomFor(env, resp, targetBuild, slot) && slot.cells.Length % blockSize == 0 ==>
              (mayMark.Some? <==> Deliverable(env, resp, targetBuild, activeSize))
  {
    end := 0;
    var writer := new AlignedWriter(slot, blockSize);
    var r, handed := Download(env, resp, targetBuild, writer, activeSize);
    if r.Failed? {
      return None, 0;
    }
    var finished := writer.Finish();
    if !finished {
      return None, 0;
    }
    return Some(r.manifest), writer.offset;
  }

  /** Every byte that may be marked bootable was signed by a trusted key. */
  lemma AdmittedIsAuthorised(env: Env, resp: Response, targetBuild: u64)
    requires Admitted(env, resp, targetBuild).Fetched?
    ensures exists signature :: M.Authorised(env.crypto, env.policy, Admitted(env, resp, targetBuild).manifest, signature)
  {
    M.AcceptedIsAuthorised(env.crypto, env.policy, resp.header.value, env.utf8);
  }
}
