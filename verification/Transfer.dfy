/**
  The delta transfer (client/internal/engine/transfer.go): two passes over the file, one
  question, only what is missing is sent, and the manifest rebuilds the file.
 */
module Transfer {
  import opened Base
  import opened Server

  /** The content-defined splitter: any function that cuts every content into non-empty pieces. */
  ghost predicate IsSplitter(split: Bytes -> seq<Bytes>) {
    forall b :: Flat(split(b)) == b && [] !in split(b)
  }

  function Flat(pieces: seq<Bytes>): Bytes {
    if pieces == [] then [] else pieces[0] + Flat(pieces[1..])
  }

  function Hashes(pieces: seq<Bytes>): seq<Digest> {
    seq(|pieces|, i requires 0 <= i < |pieces| => Blake3(pieces[i]))
  }

  /** What a node's manifest says: small files are stored whole. */
  datatype Stored = WholeFile(bytes: Bytes) | Chunked(order: seq<Digest>)

  /** The server's chunk store, and a log of the chunks it was sent. `broken` chunks cannot be
      sent, for whatever reason. */
  class ChunkServer {
    var chunks: map<Digest, Bytes>
    var puts: seq<Digest>
    const broken: set<Digest>

    /** Every chunk is stored under its own hash. */
    ghost predicate Valid()
      reads this
    {
      forall h :: h in chunks ==> h == Blake3(chunks[h])
    }

    constructor (broken: set<Digest>)
      ensures Valid() && chunks == map[] && puts == [] && this.broken == broken
    {
      this.broken, chunks, puts := broken, map[], [];
    }

    method HaveChunks(hashes: seq<Digest>) returns (missing: seq<Digest>)
      ensures forall h :: h in missing <==> h in hashes && h !in chunks
    {
      missing := [];
      for i := 0 to |hashes|
        invariant forall h :: h in missing <==> h in hashes[..i] && h !in chunks
      {
        if hashes[i] !in chunks { missing := missing + [hashes[i]]; }
      }
    }

    /** The chunk is verified against its address before it is stored. */
    method PutChunk(h: Digest, plain: Bytes) returns (ok: bool)
      requires Valid()
      modifies this
      ensures Valid() && ok == (h !in broken && h == Blake3(plain))
      ensures chunks == if ok then old(chunks)[h := plain] else old(chunks)
      ensures puts == if ok then old(puts) + [h] else old(puts)
    {
      ok := h !in broken && h == Blake3(plain);
      if ok {
        chunks := chunks[h := plain];
        puts := puts + [h];
      }
    }

    /** Refused for an empty list, a chunk that is not there, or a hash that is not the whole's. */
    method CommitManifest(order: seq<Digest>, whole: Digest) returns (r: Option<Stored>)
      ensures r.Some? <==>
                && order != [] && (forall i :: 0 <= i < |order| ==> order[i] in chunks)
                && whole == Blake3(Assembled(chunks, order))
      ensures r.Some? ==> r.value == Chunked(order)
    {
      if order == [] { return None; }
      var all: Bytes := [];
      for i := 0 to |order|
        invariant forall j :: 0 <= j < i ==> order[j] in chunks
        invariant all == Assembled(chunks, order[..i])
      {
        if order[i] !in chunks { return None; }
        AssembledSnoc(chunks, order[..i], order[i]);
        assert order[..i + 1] == order[..i] + [order[i]];
        all := all + chunks[order[i]];
      }
      assert order[..|order|] == order;
      r := if whole == Blake3(all) then Some(Chunked(order)) else None;
    }
  }

  /** The chunks of a manifest, one after another. */
  function Assembled(chunks: map<Digest, Bytes>, order: seq<Digest>): Bytes {
    if order == [] then []
    else (if order[0] in chunks then chunks[order[0]] else []) + Assembled(chunks, order[1..])
  }

  lemma {:induction false} AssembledSnoc(chunks: map<Digest, Bytes>, order: seq<Digest>, h: Digest)
    requires h in chunks
    ensures Assembled(chunks, order + [h]) == Assembled(chunks, order) + chunks[h]
  {
    if order == [] {
      assert [h][1..] == [];
    } else {
      assert (order + [h])[0] == order[0] && (order + [h])[1..] == order[1..] + [h];
      AssembledSnoc(chunks, order[1..], h);
    }
  }

  /** Chunks stored under the hashes of the pieces are the pieces. */
  lemma {:induction false} AssembledIsFlat(chunks: map<Digest, Bytes>, pieces: seq<Bytes>)
    requires forall h :: h in chunks ==> h == Blake3(chunks[h])
    requires forall i :: 0 <= i < |pieces| ==> Blake3(pieces[i]) in chunks
    ensures Assembled(chunks, Hashes(pieces)) == Flat(pieces)
  {
    if pieces != [] {
      assert Hashes(pieces)[0] == Blake3(pieces[0]) && Hashes(pieces)[1..] == Hashes(pieces[1..]);
      AssembledIsFlat(chunks, pieces[1..]);
    }
  }

  /** dedupe: every hash that occurs, once. */
  method Dedupe(hashes: seq<Digest>) returns (out: seq<Digest>)
    ensures forall h :: h in out <==> h in hashes
    ensures forall i, j :: 0 <= i < j < |out| ==> out[i] != out[j]
  {
    var seen: set<Digest> := {};
    out := [];
    for i := 0 to |hashes|
      invariant forall h :: h in out <==> h in hashes[..i]
      invariant forall h :: h in seen <==> h in out
      invariant forall i, j :: 0 <= i < j < |out| ==> out[i] != out[j]
    {
      if hashes[i] !in seen {
        seen := seen + {hashes[i]};
        out := out + [hashes[i]];
      }
    }
  }

  ghost predicate OnceEach(hs: seq<Digest>) {
    forall i, j :: 0 <= i < j < |hs| ==> hs[i] != hs[j]
  }

  /** The second pass: each needed piece is sent when it is first met. `sent`: what was sent. */
  method SendMissing(srv: ChunkServer, pieces: seq<Bytes>, need: set<Digest>) returns (ok: bool, ghost sent: seq<Digest>)
    requires srv.Valid()
    modifies srv
    ensures srv.Valid() && srv.puts == old(srv.puts) + sent && OnceEach(sent)
    ensures forall h :: h in sent ==> h in need && h in Hashes(pieces)
    ensures forall h :: h in srv.chunks <==> h in old(srv.chunks) || h in sent
    ensures forall h :: h in old(srv.chunks) && h !in need ==> srv.chunks[h] == old(srv.chunks)[h]
    ensures ok ==> forall h :: h in need && h in Hashes(pieces) ==> h in sent
    ensures ok <==> forall h :: h in need && h in Hashes(pieces) ==> h !in srv.broken
  {
    var uploaded: set<Digest> := {};
    sent := [];
    for i := 0 to |pieces|
      invariant srv.Valid() && srv.puts == old(srv.puts) + sent && OnceEach(sent)
      invariant forall h :: h in sent <==> h in uploaded
      invariant forall h :: h in sent <==> h in need && h in Hashes(pieces[..i])
      invariant forall h :: h in sent ==> h !in srv.broken
      invariant forall h :: h in srv.chunks <==> h in old(srv.chunks) || h in sent
      invariant forall h :: h in old(srv.chunks) && h !in need ==> srv.chunks[h] == old(srv.chunks)[h]
    {
      var h := Blake3(pieces[i]);
      HashesSnoc(pieces, i);
      if h !in need || h in uploaded { continue; }
      var put := srv.PutChunk(h, pieces[i]);
      if !put { return false, sent; }
      uploaded := uploaded + {h};
      sent := sent + [h];
    }
    assert pieces[..|pieces|] == pieces;
    ok := true;
  }

  lemma HashesSnoc(pieces: seq<Bytes>, i: nat)
    requires i < |pieces|
    ensures Hashes(pieces[..i + 1]) == Hashes(pieces[..i]) + [Blake3(pieces[i])]
    ensures Blake3(pieces[i]) in Hashes(pieces)
    ensures forall h :: h in Hashes(pieces[..i]) ==> h in Hashes(pieces)
  {
    assert Hashes(pieces)[i] == Blake3(pieces[i]);
    forall h | h in Hashes(pieces[..i]) ensures h in Hashes(pieces) {
      var j :| 0 <= j < i && Hashes(pieces[..i])[j] == h;
      assert Hashes(pieces)[j] == h;
    }
  }

  /** uploadChunked. The file is read twice; `first` and `second` are what the reads saw. What is
      sent was missing, and is sent once; success means the whole manifest is on the server and
      assembles to what the first read saw, even if the file changed in between. */
  method UploadChunked(srv: ChunkServer, split: Bytes -> seq<Bytes>, first: Bytes, second: Bytes)
    returns (node: Option<Stored>, localHash: Digest, ghost sent: seq<Digest>)
    requires IsSplitter(split) && srv.Valid()
    modifies srv
    ensures srv.Valid() && srv.puts == old(srv.puts) + sent && OnceEach(sent)
    ensures forall h :: h in sent ==> h in Hashes(split(first)) && h !in old(srv.chunks)
    ensures forall h :: h in old(srv.chunks) ==> h in srv.chunks && srv.chunks[h] == old(srv.chunks)[h]
    ensures node.Some? ==> node.value == Chunked(Hashes(split(first))) && localHash == Blake3(first)
    ensures node.Some? ==> forall h :: h in Hashes(split(first)) ==> h in srv.chunks
    ensures node.Some? ==> forall h :: h in Hashes(split(first)) ==> (h in sent <==> h !in old(srv.chunks))
    ensures first == second ==>
              (node.Some? <==>
                && first != []
                && forall h :: h in Hashes(split(first)) && h !in old(srv.chunks) ==> h !in srv.broken)
  {
    var order := Hashes(split(first));
    assert Flat(split(first)) == first && [] !in split(first);
    assert order == [] <==> split(first) == [];
    localHash := Blake3(first);
    var uniq := Dedupe(order);
    var missing := srv.HaveChunks(uniq);
    var need := set h | h in missing;
    node, sent := None, [];
    assert forall h :: h in need <==> h in order && h !in srv.chunks;
    if need != {} {
      var ok;
      ok, sent := SendMissing(srv, split(second), need);
      if !ok { return; }
      assert first == second ==> forall h :: h in order ==> h in srv.chunks;
    }
    node := srv.CommitManifest(order, localHash);
    CommitsWhenComplete(srv.chunks, split(first), first);
  }

  lemma CommitsWhenComplete(chunks: map<Digest, Bytes>, pieces: seq<Bytes>, content: Bytes)
    requires Flat(pieces) == content && forall h :: h in chunks ==> h == Blake3(chunks[h])
    ensures (forall h :: h in Hashes(pieces) ==> h in chunks) ==> Assembled(chunks, Hashes(pieces)) == content
    ensures [] !in pieces ==> (content == [] <==> pieces == [])
  {
    if forall h :: h in Hashes(pieces) ==> h in chunks {
      forall i | 0 <= i < |pieces| ensures Blake3(pieces[i]) in chunks {
        assert Hashes(pieces)[i] == Blake3(pieces[i]);
      }
      AssembledIsFlat(chunks, pieces);
    }
  }

  /** A download in progress: `fails` chunks cannot be fetched; `dest` is the file at its final
      name, replaced in one rename. */
  class Download {
    var dest: Option<Bytes>

    constructor (dest: Option<Bytes>)
      ensures this.dest == dest
    {
      this.dest := dest;
    }

    /** downloadFile: chunk after chunk into a temporary file and the hasher. On success the file is
        what the manifest describes and the hash is its own; on failure the file is what it was. */
    method DownloadFile(srv: ChunkServer, node: Stored, fails: set<Digest>) returns (hash: Digest, size: nat, ok: bool)
      modifies this
      ensures ok ==> dest == Some(match node case WholeFile(bytes) => bytes case Chunked(order) => Assembled(srv.chunks, order))
      ensures ok ==> hash == Blake3(dest.value) && size == |dest.value|
      ensures !ok ==> dest == old(dest)
      ensures ok <==> node.WholeFile? ||
                        forall i :: 0 <= i < |node.order| ==> node.order[i] in srv.chunks && node.order[i] !in fails
    {
      var tmp: Bytes := [];
      hash, size := NoHash, 0;
      match node {
        case WholeFile(bytes) => tmp := bytes;
        case Chunked(order) =>
          for i := 0 to |order|
            invariant tmp == Assembled(srv.chunks, order[..i]) && dest == old(dest)
            invariant forall j :: 0 <= j < i ==> order[j] in srv.chunks && order[j] !in fails
          {
            if order[i] !in srv.chunks || order[i] in fails { return hash, size, false; }
            AssembledSnoc(srv.chunks, order[..i], order[i]);
            assert order[..i + 1] == order[..i] + [order[i]];
            tmp := tmp + srv.chunks[order[i]];
          }
          assert order[..|order|] == order;
      }
      dest := Some(tmp);
      hash, size, ok := Blake3(tmp), |tmp|, true;
    }
  }

  /** Up and down again: what one device uploaded another rebuilds byte for byte, with the hash
      the first one recorded, whatever else was uploaded in between. */
  method RoundTrip(srv: ChunkServer, split: Bytes -> seq<Bytes>, content: Bytes, other: Bytes, d: Download, fails: set<Digest>)
    returns (up: Digest, down: Digest)
    requires IsSplitter(split) && srv.Valid()
    modifies srv, d
    ensures var reachable := forall h :: h in Hashes(split(content)) ==> h !in srv.broken && h !in fails;
            content != [] && reachable ==> d.dest == Some(content) && down == up == Blake3(content)
  {
    var node;
    down := NoHash;
    ghost var sent;
    node, up, sent := UploadChunked(srv, split, content, content);
    var _, _, _ := UploadChunked(srv, split, other, other);
    if node.Some? {
      CommitsWhenComplete(srv.chunks, split(content), content);
      var size, ok;
      down, size, ok := d.DownloadFile(srv, node.value, fails);
    }
  }
}
