/**
  Resumable uploads: the truncate-then-append staging of both blob stores
  (server/internal/blob/blob.go, server/internal/blob/s3.go) under the upload session that
  commits offset and hash state together (server/internal/files/uploads.go).
 */
module Staging {
  import opened Base
  import S3Reader

  datatype Backend = Disk | Bucket

  /** How far one append gets. `data`: the bytes the body yields; `hangsUp`: it then fails;
      `storeFails`: the fsync, or the PUT, that follows the copy fails. */
  datatype Incoming = Incoming(data: Bytes, hangsUp: bool, storeFails: bool)

  /** A running digest: the bytes written to it, in order. */
  class Hasher {
    var absorbed: Bytes

    constructor (absorbed: Bytes)
      ensures this.absorbed == absorbed
    {
      this.absorbed := absorbed;
    }

    method Write(p: Bytes)
      modifies this
      ensures absorbed == old(absorbed) + p
    {
      absorbed := absorbed + p;
    }
  }

  function Spliced(file: Bytes, offset: nat, data: Bytes): Bytes
    requires offset <= |file|
  {
    file[..offset] + data
  }

  /** The specification both stores meet, for an offset within the file. `fed`: what the hasher was
      given. The part before the offset stays; unless the store fails after the copy, the count
      returned is the count hashed, and those bytes follow the offset, to the end of the file. */
  ghost predicate Meets(before: Bytes, after: Bytes, offset: nat, r: Incoming, fed: Bytes, written: nat, ok: bool)
    requires offset <= |before|
  {
    && (fed == [] || fed == r.data)
    && offset <= |after| && after[..offset] == before[..offset]
    && (if r.storeFails then written == 0 && !ok else written == |fed| && (fed != [] ==> after == Spliced(before, offset, fed)))
    && (ok ==> fed == r.data && after == Spliced(before, offset, r.data))
  }

  /** A staging file or staging object. */
  class Partial {
    const backend: Backend
    var bytes: Bytes

    constructor (backend: Backend)
      ensures this.backend == backend && bytes == []
    {
      this.backend, bytes := backend, [];
    }

    /** Truncate, seek, copy to file and hasher, fsync. Past the end of the file the truncate
        would pad with zeros; the session never asks for that. */
    method AppendToFile(offset: nat, hasher: Hasher, r: Incoming) returns (written: nat, ok: bool)
      requires offset <= |bytes|
      modifies this`bytes, hasher
      ensures bytes == Spliced(old(bytes), offset, r.data) && hasher.absorbed == old(hasher.absorbed) + r.data
      ensures Meets(old(bytes), bytes, offset, r, r.data, written, ok) && ok == (!r.storeFails && !r.hangsUp)
    {
      bytes := bytes[..offset];
      bytes := bytes + r.data;
      hasher.Write(r.data);
      if r.storeFails { return 0, false; }
      written, ok := |r.data|, !r.hangsUp;
    }

    /** Stat, read back the part to keep and no more, append, PUT the whole object. `nets` is how the
        network treats the read-back. Nothing is hashed before the read-back is complete. */
    method AppendToObject(offset: nat, hasher: Hasher, r: Incoming, nets: seq<S3Reader.Net>)
      returns (written: nat, ok: bool, ghost fed: Bytes)
      modifies this`bytes, hasher
      ensures hasher.absorbed == old(hasher.absorbed) + fed
      ensures offset > |old(bytes)| ==> bytes == old(bytes) && fed == [] && written == 0 && !ok
      ensures offset <= |old(bytes)| ==> Meets(old(bytes), bytes, offset, r, fed, written, ok)
      ensures offset == 0 || (offset <= |old(bytes)| < |nets| && S3Reader.AllHealthy(old(bytes), nets)) ==>
                fed == r.data && ok == (!r.storeFails && !r.hangsUp)
      ensures bytes == old(bytes) || (offset <= |old(bytes)| && bytes == Spliced(old(bytes), offset, r.data))
    {
      fed := [];
      if offset > |bytes| { return 0, false, fed; }
      var spool: Bytes := [];
      if offset > 0 {
        var reader := new S3Reader.Reader(bytes);
        var kept, result := reader.CopyLimited(offset, offset, nets);
        if result != Some(true) { return 0, false, fed; }
        spool := kept;
      }
      spool := spool + r.data;
      hasher.Write(r.data);
      fed := r.data;
      if r.storeFails { return 0, false, fed; }
      bytes := spool;
      written, ok := |r.data|, !r.hangsUp;
    }
  }

  /** The upload session: the row, with its offset and saved hash state, and the staging object. */
  class Session {
    const size: nat
    const partial: Partial
    var offset: nat
    var saved: Bytes
    /** What the client was told was accepted, in order. */
    ghost var accepted: Bytes

    constructor (size: nat, backend: Backend)
      ensures Valid() && accepted == [] && this.size == size && fresh(partial) && partial.backend == backend
    {
      this.size, offset, saved, accepted := size, 0, [], [];
      partial := new Partial(backend);
    }

    /** The first `offset` bytes are the accepted data and the hash state is theirs. */
    ghost predicate Valid()
      reads this, partial
    {
      && offset <= |partial.bytes| && offset <= size
      && partial.bytes[..offset] == accepted && saved == accepted
    }

    /** Nothing needs to be read back, or the network delivers all of it. */
    ghost predicate ReadsBack(nets: seq<S3Reader.Net>)
      reads this, partial
    {
      partial.backend == Disk || offset == 0 || (|partial.bytes| < |nets| && S3Reader.AllHealthy(partial.bytes, nets))
    }

    /** One PATCH. `crash`: the process dies before the row is written. The row takes offset and
        hash state in one statement. Unless the store failed after hashing something, the session
        stays valid; if it did, and the row was written, the hash state is no longer that of the
        accepted bytes. */
    method AppendChunk(claimed: nat, r: Incoming, nets: seq<S3Reader.Net>, crash: bool) returns (ok: bool, ghost fed: Bytes)
      requires Valid()
      modifies this, partial
      ensures fed <= r.data && (claimed != old(offset) ==> !ok && fed == [])
      ensures claimed == old(offset) ==> (ok <==> !crash && (r.storeFails || |fed| <= size - old(offset)))
      ensures !ok ==> Valid() && accepted == old(accepted) && offset == old(offset)
      ensures ok ==> saved == old(saved) + fed
      ensures ok && !r.storeFails ==> Valid() && accepted == old(accepted) + fed
      ensures ok && r.storeFails ==> accepted == old(accepted) && offset == old(offset) && (Valid() <==> fed == [])
      ensures claimed == old(offset) && old(ReadsBack(nets)) ==> fed == r.data[..S3Reader.Min(|r.data|, size - old(offset) + 1)]
    {
      fed := [];
      if claimed != offset { return false, fed; }
      var hasher := new Hasher(saved);
      var remaining := size - offset;
      var limited := r.(data := r.data[..S3Reader.Min(|r.data|, remaining + 1)]);
      var written;
      ghost var before := partial.bytes;
      if partial.backend == Disk {
        written, ok := partial.AppendToFile(offset, hasher, limited);
        fed := limited.data;
      } else {
        written, ok, fed := partial.AppendToObject(offset, hasher, limited, nets);
      }
      assert Meets(before, partial.bytes, offset, limited, fed, written, ok);
      assert partial.bytes[..offset] == accepted && fed <= r.data;
      if written > remaining || crash { return false, fed; }
      offset, saved := offset + written, hasher.absorbed;
      if !r.storeFails {
        accepted := accepted + fed;
      }
      ok := true;
    }

    /** Any run of attempts, each with its own claim, body, network and possible crash, none of
        them with a store failure: the accepted data is the committed pieces in order. */
    method Run(attempts: seq<Attempt>) returns (ghost pieces: seq<Bytes>)
      requires Valid() && forall i :: 0 <= i < |attempts| ==> !attempts[i].r.storeFails
      modifies this, partial
      ensures Valid() && |pieces| == |attempts| && accepted == old(accepted) + Joined(pieces)
      ensures forall i :: 0 <= i < |attempts| ==> pieces[i] <= attempts[i].r.data
      ensures forall i :: 0 <= i < |attempts| && attempts[i].crash ==> pieces[i] == []
    {
      pieces := [];
      for i := 0 to |attempts|
        invariant Valid() && |pieces| == i && accepted == old(accepted) + Joined(pieces)
        invariant forall j :: 0 <= j < i ==> pieces[j] <= attempts[j].r.data && (attempts[j].crash ==> pieces[j] == [])
      {
        var a := attempts[i];
        var ok;
        ghost var fed;
        ok, fed := AppendChunk(a.claimed, a.r, a.nets, a.crash);
        pieces := pieces + [if ok then fed else []];
        assert pieces[..i] == pieces[..|pieces| - 1];
      }
    }

    /** FinishUpload up to the hand-over: the length is checked against the staging object. */
    method Finish() returns (r: Option<Bytes>, hash: Digest)
      requires Valid()
      ensures r.Some? <==> offset == size && |partial.bytes| == size
      ensures r.Some? ==> r.value == accepted && hash == Sha256(accepted)
    {
      r, hash := None, NoHash;
      if offset != size || |partial.bytes| != size { return; }
      assert partial.bytes == partial.bytes[..offset];
      r, hash := Some(partial.bytes), Sha256(saved);
    }
  }

  datatype Attempt = Attempt(claimed: nat, r: Incoming, nets: seq<S3Reader.Net>, crash: bool)

  function Joined(pieces: seq<Bytes>): Bytes {
    if pieces == [] then [] else Joined(pieces[..|pieces| - 1]) + pieces[|pieces| - 1]
  }

  /** An fsync that fails once is enough: the row records no progress but a hash state that has
      already absorbed the byte, and the retry of the same byte is hashed twice. */
  method FailedSyncSpoilsTheHash() returns (s: Session)
    ensures fresh(s) && !s.Valid() && s.accepted == [] && s.offset == 0 && s.saved == [7]
  {
    s := new Session(1, Disk);
    var ok;
    ghost var fed;
    ok, fed := s.AppendChunk(0, Incoming([7], false, true), [], false);
    assert fed == [7] by { assert [7][..1] == [7]; }
  }
}
