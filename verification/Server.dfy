/**
  The server as the sync engine sees it: the live tree, the journal, and the operations the
  push issues. Every operation that changes the tree appends to the journal.
 */
module Server {
  import opened Base
  import opened Pull

  /** The id of the root folder, which is never a row or a tree entry. */
  const ROOT: Id := 0

  /** Files below this many bytes are stored whole, the others as chunks. */
  const WHOLE_FILE_THRESHOLD: nat := 2048

  datatype Server = Server(nodes: Tree, journal: seq<Change>, next: Id)

  datatype Reply = Made(srv: Server, id: Id) | NameTaken | NoParent

  /** The version identity of an upload: SHA-256 of a whole-file blob, BLAKE3 of a chunked one. */
  function ContentHash(bytes: Bytes): Digest {
    if |bytes| < WHOLE_FILE_THRESHOLD then Sha256(bytes) else Blake3(bytes)
  }

  predicate IsLiveFolder(t: Tree, id: Id) {
    id == ROOT || (id in t && t[id].kind == IsFolder)
  }

  function PathOf(t: Tree, id: Id): Path
    requires IsLiveFolder(t, id)
  {
    if id == ROOT then [] else t[id].path
  }

  ghost predicate Taken(t: Tree, p: Path) {
    exists x :: x in t && t[x].path == p
  }

  ghost function NodeAt(t: Tree, p: Path): Id
    requires Taken(t, p)
  {
    var x :| x in t && t[x].path == p; x
  }

  function Add(srv: Server, n: Node): Server {
    Server(srv.nodes[srv.next := n], srv.journal + [Upsert(srv.next)], srv.next + 1)
  }

  ghost function CreateFolder(srv: Server, parent: Id, name: string): Reply {
    if !IsLiveFolder(srv.nodes, parent) then NoParent
    else
      var p := PathOf(srv.nodes, parent) + [name];
      if Taken(srv.nodes, p) then NameTaken
      else Made(Add(srv, Node(p, IsFolder, NoHash)), srv.next)
  }

  /** An upload to an existing file's name is a new version of the same node. */
  ghost function Upload(srv: Server, parent: Id, name: string, bytes: Bytes): Reply {
    if !IsLiveFolder(srv.nodes, parent) then NoParent
    else
      var p := PathOf(srv.nodes, parent) + [name];
      var n := Node(p, IsFile, ContentHash(bytes));
      if !Taken(srv.nodes, p) then Made(Add(srv, n), srv.next)
      else
        var x := NodeAt(srv.nodes, p);
        if srv.nodes[x].kind == IsFolder then NameTaken
        else Made(Server(srv.nodes[x := n], srv.journal + [Upsert(x)], srv.next), x)
  }

  /** The live nodes beneath `p` with ids below `k`, in id order. */
  function Beneath(t: Tree, p: Path, k: Id): seq<Id> {
    if k == 0 then []
    else Beneath(t, p, k - 1) + if k - 1 in t && p < t[k - 1].path then [k - 1] else []
  }

  function Deletes(ids: seq<Id>): seq<Change> {
    seq(|ids|, i requires 0 <= i < |ids| => Delete(ids[i]))
  }

  /** Trash takes the subtree along; None is the 404 for a node that is not live. */
  function Trash(srv: Server, id: Id): Option<Server> {
    if id !in srv.nodes then None
    else
      var p := srv.nodes[id].path;
      Some(Server(map x | x in srv.nodes && !Under(srv.nodes[x].path, p) :: srv.nodes[x],
                  srv.journal + [Delete(id)] + Deletes(Beneath(srv.nodes, p, srv.next)),
                  srv.next))
  }

  ghost predicate ValidServer(srv: Server) {
    && ValidTree(srv.nodes)
    && srv.next > ROOT && ROOT !in srv.nodes
    && forall x :: x in srv.nodes ==> x < srv.next
  }

  /** Folders that stay live keep serving as parents. */
  lemma HasFolderAfter(t: Tree, u: Tree, p: Path)
    requires HasFolder(t, p)
    requires forall g :: g in t && t[g].kind == IsFolder && t[g].path == p ==> g in u && u[g] == t[g]
    ensures HasFolder(u, p)
  {
    if p != [] {
      var g :| g in t && t[g].path == p && t[g].kind == IsFolder;
      assert g in u && u[g].path == p && u[g].kind == IsFolder;
    }
  }

  /** A new or replaced node with an existing folder above it keeps the tree a tree. */
  lemma PutKeepsTree(t: Tree, x: Id, n: Node)
    requires ValidTree(t) && n.path != [] && (n.kind == IsFolder <==> n.hash == NoHash)
    requires HasFolder(t, Parent(n.path)) && forall y :: y in t && t[y].path == n.path ==> y == x
    requires x in t ==> t[x].kind == IsFile
    ensures ValidTree(t[x := n])
  {
    var u := t[x := n];
    forall y | y in u ensures HasFolder(u, Parent(u[y].path)) {
      var up := Parent(u[y].path);
      assert HasFolder(t, up) by {
        if y != x {
          assert HasFolder(t, Parent(t[y].path));
        }
      }
      HasFolderAfter(t, u, up);
    }
  }

  lemma AddKeepsValid(srv: Server, n: Node)
    requires ValidServer(srv) && n.path != [] && (n.kind == IsFolder <==> n.hash == NoHash)
    requires !Taken(srv.nodes, n.path) && HasFolder(srv.nodes, Parent(n.path))
    ensures ValidServer(Add(srv, n))
  {
    PutKeepsTree(srv.nodes, srv.next, n);
  }

  lemma UploadKeepsValid(srv: Server, parent: Id, name: string, bytes: Bytes)
    requires ValidServer(srv) && Upload(srv, parent, name, bytes).Made?
    ensures ValidServer(Upload(srv, parent, name, bytes).srv)
  {
    var p := PathOf(srv.nodes, parent) + [name];
    var n := Node(p, IsFile, ContentHash(bytes));
    assert Parent(p) == PathOf(srv.nodes, parent);
    if Taken(srv.nodes, p) {
      PutKeepsTree(srv.nodes, NodeAt(srv.nodes, p), n);
    } else {
      AddKeepsValid(srv, n);
    }
  }

  lemma CreateKeepsValid(srv: Server, parent: Id, name: string)
    requires ValidServer(srv) && CreateFolder(srv, parent, name).Made?
    ensures ValidServer(CreateFolder(srv, parent, name).srv)
  {
    var p := PathOf(srv.nodes, parent) + [name];
    assert Parent(p) == PathOf(srv.nodes, parent);
    AddKeepsValid(srv, Node(p, IsFolder, NoHash));
  }

  lemma TrashKeepsValid(srv: Server, id: Id)
    requires ValidServer(srv) && Trash(srv, id).Some?
    ensures ValidServer(Trash(srv, id).value)
  {
    var t, p := Trash(srv, id).value.nodes, srv.nodes[id].path;
    forall x | x in t ensures HasFolder(t, Parent(t[x].path)) {
      var up := Parent(t[x].path);
      assert HasFolder(srv.nodes, up);
      assert Under(up, p) ==> Under(t[x].path, p);
      HasFolderAfter(srv.nodes, t, up);
    }
  }

  lemma {:induction false} BeneathIsBeneath(t: Tree, p: Path, k: Id)
    ensures forall i :: 0 <= i < |Beneath(t, p, k)| ==> Beneath(t, p, k)[i] in t && p < t[Beneath(t, p, k)[i]].path
  {
    if k > 0 {
      BeneathIsBeneath(t, p, k - 1);
    }
  }
}
