/** Shared one-page file mappings: the node list, its counts, and the frame behind each file. */
module Sharing {
  import opened Lists
  import opened Tally

  type File = int
  type Frame = int

  /** A mapped page of some process; one integer stands for the process and the address. */
  type PageId = int

  /** The address of a node. */
  type NodeId = int

  /** An entry is given a pointer to its file's node by the first touch. */
  datatype Entry = Untouched(file: File) | Attached(file: File, node: NodeId)

  datatype Node = Node(id: NodeId, file: File, count: int, pa: Frame)

  /** What an entry counts for: nothing, or one user of a file. */
  datatype Use = Unused | Uses(file: File)

  function UseOf(e: Entry): Use { if e.Attached? then Uses(e.file) else Unused }

  function UsesOf(at: map<PageId, Entry>): map<PageId, Use> { map p | p in at :: UseOf(at[p]) }

  /** Entries attached to `file`. */
  function Users(at: map<PageId, Entry>, file: File): nat { Num(UsesOf(at), {Uses(file)}) }

  // ---------------------------------------------------------------- invariant

  ghost predicate NodeOk(at: map<PageId, Entry>, nodes: seq<Node>, live: set<Frame>, k: int)
    requires 0 <= k < |nodes|
  {
    nodes[k].count == Users(at, nodes[k].file) && 1 <= nodes[k].count && nodes[k].pa in live
  }

  /** Different nodes have different addresses, files and frames. */
  ghost predicate NodesDiffer(nodes: seq<Node>, j: int, k: int)
    requires 0 <= j < k < |nodes|
  {
    nodes[j].id != nodes[k].id && nodes[j].file != nodes[k].file && nodes[j].pa != nodes[k].pa
  }

  /** The list holds the node at address `id`, and it is the one of `file` around frame `pa`. */
  ghost predicate Has(nodes: seq<Node>, id: NodeId, file: File, pa: Frame) {
    exists k :: 0 <= k < |nodes| && nodes[k].id == id && nodes[k].file == file && nodes[k].pa == pa
  }

  /** An attached page points to its file's node and translates to its frame; an untouched one is not mapped. */
  ghost predicate PageOk(at: map<PageId, Entry>, nodes: seq<Node>, pages: map<PageId, Frame>, p: PageId)
    requires p in at
  {
    if at[p].Attached? then p in pages && Has(nodes, at[p].node, at[p].file, pages[p]) else p !in pages
  }

  ghost predicate FrameOk(nodes: seq<Node>, f: Frame) { exists k :: 0 <= k < |nodes| && nodes[k].pa == f }

  ghost predicate Inv(at: map<PageId, Entry>, nodes: seq<Node>, pages: map<PageId, Frame>, live: set<Frame>) {
    && (forall k {:trigger NodeOk(at, nodes, live, k)} :: 0 <= k < |nodes| ==> NodeOk(at, nodes, live, k))
    && (forall j, k {:trigger NodesDiffer(nodes, j, k)} :: 0 <= j < k < |nodes| ==> NodesDiffer(nodes, j, k))
    && (forall p {:trigger PageOk(at, nodes, pages, p)} :: p in at ==> PageOk(at, nodes, pages, p))
    && (forall f {:trigger FrameOk(nodes, f)} :: f in live ==> FrameOk(nodes, f))
    && pages.Keys <= at.Keys
  }

  /** The node of `file`, or the length of the list. */
  function Find(nodes: seq<Node>, file: File): (k: int)
    ensures 0 <= k <= |nodes|
    ensures forall j :: 0 <= j < k ==> nodes[j].file != file
    ensures k < |nodes| ==> nodes[k].file == file
  {
    if nodes == [] || nodes[0].file == file then 0 else 1 + Find(nodes[1..], file)
  }

  /** The node at address `id`, or the length of the list. */
  function Locate(nodes: seq<Node>, id: NodeId): (k: int)
    ensures 0 <= k <= |nodes|
    ensures forall j :: 0 <= j < k ==> nodes[j].id != id
    ensures k < |nodes| ==> nodes[k].id == id
  {
    if nodes == [] || nodes[0].id == id then 0 else 1 + Locate(nodes[1..], id)
  }

  /** At most one node of the list is for `file`. */
  lemma OnlyNode(at: map<PageId, Entry>, nodes: seq<Node>, pages: map<PageId, Frame>, live: set<Frame>, j: int, k: int)
    requires Inv(at, nodes, pages, live) && 0 <= j < |nodes| && 0 <= k < |nodes|
    requires nodes[j].id == nodes[k].id || nodes[j].file == nodes[k].file || nodes[j].pa == nodes[k].pa
    ensures j == k
  {
    assert j < k ==> NodesDiffer(nodes, j, k);
    assert k < j ==> NodesDiffer(nodes, k, j);
  }

  /** All attached pages of a file translate to one frame, and pages of different files to different ones. */
  lemma OneFramePerFile(at: map<PageId, Entry>, nodes: seq<Node>, pages: map<PageId, Frame>, live: set<Frame>,
                        p: PageId, q: PageId)
    requires Inv(at, nodes, pages, live) && p in at && q in at && at[p].Attached? && at[q].Attached?
    ensures p in pages && q in pages && (pages[p] == pages[q] <==> at[p].file == at[q].file)
    ensures pages[p] in live
  {
    assert PageOk(at, nodes, pages, p) && PageOk(at, nodes, pages, q);
    var j :| 0 <= j < |nodes| && nodes[j].id == at[p].node && nodes[j].file == at[p].file && nodes[j].pa == pages[p];
    var k :| 0 <= k < |nodes| && nodes[k].id == at[q].node && nodes[k].file == at[q].file && nodes[k].pa == pages[q];
    assert NodeOk(at, nodes, live, j);
    assert j < k ==> NodesDiffer(nodes, j, k);
    assert k < j ==> NodesDiffer(nodes, k, j);
  }

  lemma UsersMove(at: map<PageId, Entry>, p: PageId, e: Entry, file: File)
    requires p in at
    ensures Users(at[p := e], file) == Users(at, file) - One(UseOf(at[p]), {Uses(file)}) + One(UseOf(e), {Uses(file)})
  {
    NumMove(UsesOf(at), p, UseOf(e), {Uses(file)});
    assert UsesOf(at[p := e]) == UsesOf(at)[p := UseOf(e)];
  }

  lemma UsersAdd(at: map<PageId, Entry>, p: PageId, e: Entry, file: File)
    requires p !in at
    ensures Users(at[p := e], file) == Users(at, file) + One(UseOf(e), {Uses(file)})
  {
    NumAdd(UsesOf(at), p, UseOf(e), {Uses(file)});
    assert UsesOf(at[p := e]) == UsesOf(at)[p := UseOf(e)];
  }

  lemma UsersDrop(at: map<PageId, Entry>, p: PageId, file: File)
    requires p in at
    ensures Users(at - {p}, file) == Users(at, file) - One(UseOf(at[p]), {Uses(file)})
  {
    NumDrop(UsesOf(at), p, {Uses(file)});
    assert UsesOf(at - {p}) == UsesOf(at) - {p};
  }

  // ---------------------------------------------------------------- map

  lemma MapKeeps(at: map<PageId, Entry>, nodes: seq<Node>, pages: map<PageId, Frame>, live: set<Frame>, p: PageId,
                 file: File)
    requires Inv(at, nodes, pages, live) && p !in at
    ensures Inv(at[p := Untouched(file)], nodes, pages, live)
  {
    var at' := at[p := Untouched(file)];
    forall k | 0 <= k < |nodes| ensures NodeOk(at', nodes, live, k) {
      assert NodeOk(at, nodes, live, k);
      UsersAdd(at, p, Untouched(file), nodes[k].file);
    }
    forall x | x in at' ensures PageOk(at', nodes, pages, x) { assert x != p ==> PageOk(at, nodes, pages, x); }
  }

  // ---------------------------------------------------------------- first touch

  /** Attaching to the node that is already there: its count goes up by one. */
  lemma TouchKnown(at: map<PageId, Entry>, nodes: seq<Node>, pages: map<PageId, Frame>, live: set<Frame>, p: PageId,
                   k: int)
    requires Inv(at, nodes, pages, live) && p in at && at[p].Untouched? && 0 <= k < |nodes| &&
               nodes[k].file == at[p].file
    ensures Inv(at[p := Attached(at[p].file, nodes[k].id)], nodes[k := nodes[k].(count := nodes[k].count + 1)],
                pages[p := nodes[k].pa], live)
  {
    var e := Attached(at[p].file, nodes[k].id);
    var at', nodes' := at[p := e], nodes[k := nodes[k].(count := nodes[k].count + 1)];
    var pages' := pages[p := nodes[k].pa];
    forall j | 0 <= j < |nodes'| ensures NodeOk(at', nodes', live, j) {
      assert NodeOk(at, nodes, live, j);
      UsersMove(at, p, e, nodes[j].file);
      assert j < k ==> NodesDiffer(nodes, j, k);
      assert k < j ==> NodesDiffer(nodes, k, j);
    }
    forall i, j | 0 <= i < j < |nodes'| ensures NodesDiffer(nodes', i, j) { assert NodesDiffer(nodes, i, j); }
    forall x | x in at' ensures PageOk(at', nodes', pages', x) {
      assert PageOk(at, nodes, pages, x);
      assert nodes'[k].file == at[p].file;
      if x != p && at[x].Attached? { HasKept(nodes, nodes', at[x].node, at[x].file, pages[x]); }
    }
    forall f | f in live ensures FrameOk(nodes', f) {
      assert FrameOk(nodes, f);
      var j :| 0 <= j < |nodes| && nodes[j].pa == f;
      assert nodes'[j].pa == f;
    }
  }

  lemma HasKept(nodes: seq<Node>, nodes': seq<Node>, id: NodeId, file: File, pa: Frame)
    requires Has(nodes, id, file, pa) && |nodes| <= |nodes'|
    requires forall j :: 0 <= j < |nodes| ==> nodes'[j] == nodes[j].(count := nodes'[j].count)
    ensures Has(nodes', id, file, pa)
  {
    var j :| 0 <= j < |nodes| && nodes[j].id == id && nodes[j].file == file && nodes[j].pa == pa;
    assert nodes'[j].file == file;
  }

  /** The first touch of a file: a new node with count one around a frame nobody uses. */
  lemma TouchNew(at: map<PageId, Entry>, nodes: seq<Node>, pages: map<PageId, Frame>, live: set<Frame>, p: PageId,
                 id: NodeId, frame: Frame)
    requires Inv(at, nodes, pages, live) && p in at && at[p].Untouched? && frame !in live
    requires Find(nodes, at[p].file) == |nodes| && Locate(nodes, id) == |nodes|
    ensures Inv(at[p := Attached(at[p].file, id)], nodes + [Node(id, at[p].file, 1, frame)], pages[p := frame],
                live + {frame})
  {
    var file := at[p].file;
    var at', nodes' := at[p := Attached(file, id)], nodes + [Node(id, file, 1, frame)];
    var pages', live' := pages[p := frame], live + {frame};
    NoUsers(at, nodes, pages, live, file);
    forall j | 0 <= j < |nodes'| ensures NodeOk(at', nodes', live', j) {
      assert j < |nodes| ==> NodeOk(at, nodes, live, j);
      UsersMove(at, p, Attached(file, id), nodes'[j].file);
    }
    forall i, j | 0 <= i < j < |nodes'| ensures NodesDiffer(nodes', i, j) {
      assert NodeOk(at, nodes, live, i);
      assert j < |nodes| ==> NodesDiffer(nodes, i, j);
    }
    forall x | x in at' ensures PageOk(at', nodes', pages', x) {
      assert PageOk(at, nodes, pages, x);
      assert nodes'[|nodes|].file == file;
      if x != p && at[x].Attached? { HasKept(nodes, nodes', at[x].node, at[x].file, pages[x]); }
    }
    forall f | f in live' ensures FrameOk(nodes', f) {
      assert nodes'[|nodes|].pa == frame;
      if f != frame {
        assert FrameOk(nodes, f);
        var j :| 0 <= j < |nodes| && nodes[j].pa == f;
        assert nodes'[j].pa == f;
      }
    }
  }

  /** A file without a node has no attached entries. */
  lemma NoUsers(at: map<PageId, Entry>, nodes: seq<Node>, pages: map<PageId, Frame>, live: set<Frame>, file: File)
    requires Inv(at, nodes, pages, live) && Find(nodes, file) == |nodes|
    ensures Users(at, file) == 0
  {
    forall p | p in at ensures UsesOf(at)[p] != Uses(file) { assert PageOk(at, nodes, pages, p); }
    NobodyThere(UsesOf(at), {Uses(file)});
  }

  // ---------------------------------------------------------------- unmap

  /** Detaching one of several users: the count goes down by one and the frame stays. */
  lemma UnmapShared(at: map<PageId, Entry>, nodes: seq<Node>, pages: map<PageId, Frame>, live: set<Frame>, p: PageId,
                    k: int)
    requires Inv(at, nodes, pages, live) && p in at && at[p].Attached? && 0 <= k < |nodes| &&
               nodes[k].file == at[p].file
    requires nodes[k].count - 1 != 0
    ensures Inv(at - {p}, nodes[k := nodes[k].(count := nodes[k].count - 1)], pages - {p}, live)
  {
    var at', nodes', pages' := at - {p}, nodes[k := nodes[k].(count := nodes[k].count - 1)], pages - {p};
    forall j | 0 <= j < |nodes'| ensures NodeOk(at', nodes', live, j) {
      assert NodeOk(at, nodes, live, j);
      UsersDrop(at, p, nodes[j].file);
      assert j < k ==> NodesDiffer(nodes, j, k);
      assert k < j ==> NodesDiffer(nodes, k, j);
    }
    forall i, j | 0 <= i < j < |nodes'| ensures NodesDiffer(nodes', i, j) { assert NodesDiffer(nodes, i, j); }
    forall x | x in at' ensures PageOk(at', nodes', pages', x) {
      assert PageOk(at, nodes, pages, x);
      if at[x].Attached? { HasKept(nodes, nodes', at[x].node, at[x].file, pages[x]); }
    }
    forall f | f in live ensures FrameOk(nodes', f) {
      assert FrameOk(nodes, f);
      var j :| 0 <= j < |nodes| && nodes[j].pa == f;
      assert nodes'[j].pa == f;
    }
  }

  lemma WithoutAt(nodes: seq<Node>, k: int, j: int)
    requires 0 <= k < |nodes| && 0 <= j < |nodes| && j != k
    ensures Without(nodes, k)[if j < k then j else j - 1] == nodes[j]
  {
  }

  /** Nobody but `p` uses the node's file when its count is one. */
  lemma LastUser(at: map<PageId, Entry>, file: File, p: PageId, x: PageId)
    requires p in at && UseOf(at[p]) == Uses(file) && Users(at, file) == 1 && x in at && x != p
    ensures UseOf(at[x]) != Uses(file)
  {
    UsersDrop(at, p, file);
    if UseOf(at[x]) == Uses(file) { Present(UsesOf(at - {p}), x, {Uses(file)}); }
  }

  /** Detaching the last user: the node goes, and exactly its frame is freed. */
  lemma UnmapLast(at: map<PageId, Entry>, nodes: seq<Node>, pages: map<PageId, Frame>, live: set<Frame>, p: PageId,
                  k: int)
    requires Inv(at, nodes, pages, live) && p in at && at[p].Attached? && 0 <= k < |nodes| &&
               nodes[k].file == at[p].file
    requires nodes[k].count - 1 == 0
    ensures Inv(at - {p}, Without(nodes, k), pages - {p}, live - {nodes[k].pa})
  {
    var at', nodes', pages', live' := at - {p}, Without(nodes, k), pages - {p}, live - {nodes[k].pa};
    assert NodeOk(at, nodes, live, k);
    forall j | 0 <= j < |nodes'| ensures NodeOk(at', nodes', live', j) {
      var j0 := if j < k then j else j + 1;
      assert NodeOk(at, nodes, live, j0);
      UsersDrop(at, p, nodes[j0].file);
      assert if j0 < k then NodesDiffer(nodes, j0, k) else NodesDiffer(nodes, k, j0);
    }
    forall i, j | 0 <= i < j < |nodes'| ensures NodesDiffer(nodes', i, j) {
      assert NodesDiffer(nodes, if i < k then i else i + 1, if j < k then j else j + 1);
    }
    forall x | x in at' ensures PageOk(at', nodes', pages', x) {
      assert PageOk(at, nodes, pages, x);
      LastUser(at, at[p].file, p, x);
      if at[x].Attached? {
        var j :| 0 <= j < |nodes| && nodes[j].id == at[x].node && nodes[j].file == at[x].file &&
                 nodes[j].pa == pages[x];
        WithoutAt(nodes, k, j);
      }
    }
    forall f | f in live' ensures FrameOk(nodes', f) {
      assert FrameOk(nodes, f);
      var j :| 0 <= j < |nodes| && nodes[j].pa == f;
      WithoutAt(nodes, k, j);
    }
  }

  /** The node an attached entry points to is in the list: it is the one of the entry's file, and its count is the
      number of that file's users. So no node is unlinked while an entry holds it. */
  lemma NodeOfPage(at: map<PageId, Entry>, nodes: seq<Node>, pages: map<PageId, Frame>, live: set<Frame>, p: PageId)
    requires Inv(at, nodes, pages, live) && p in at && at[p].Attached?
    ensures var k := Find(nodes, at[p].file);
            && k < |nodes| && k == Locate(nodes, at[p].node)
            && p in pages && pages[p] == nodes[k].pa && nodes[k].count == Users(at, at[p].file)
  {
    assert PageOk(at, nodes, pages, p);
    var j :| 0 <= j < |nodes| && nodes[j].id == at[p].node && nodes[j].file == at[p].file && nodes[j].pa == pages[p];
    var k, i := Find(nodes, at[p].file), Locate(nodes, at[p].node);
    OnlyNode(at, nodes, pages, live, j, k);
    OnlyNode(at, nodes, pages, live, j, i);
    assert NodeOk(at, nodes, live, k);
  }

  // ---------------------------------------------------------------- the operations

  class SharedPages {
    var at: map<PageId, Entry>
    var nodes: seq<Node>
    var pages: map<PageId, Frame>
    ghost var live: set<Frame>   // frames allocated for nodes and not returned

    ghost predicate Valid()
      reads this
    {
      Inv(at, nodes, pages, live)
    }

    constructor ()
      ensures Valid() && at == map[] && nodes == [] && live == {}
    {
      at, nodes, pages, live := map[], [], map[], {};
    }

    method Map(p: PageId, file: File)
      requires Valid() && p !in at
      modifies this
      ensures Valid() && at == old(at)[p := Untouched(file)]
      ensures nodes == old(nodes) && pages == old(pages) && live == old(live)
    {
      MapKeeps(at, nodes, pages, live, p, file);
      at := at[p := Untouched(file)];
    }

    /** The page fault of a shared mapping; `frame` and `id` are what the allocators would hand out. */
    method Touch(p: PageId, frame: Frame, id: NodeId)
      requires Valid() && p in at && at[p].Untouched? && frame !in live && Locate(nodes, id) == |nodes|
      modifies this
      ensures Valid() && p in at && at == old(at)[p := at[p]] && at[p].Attached? && at[p].file == old(at)[p].file
      ensures p in pages && pages == old(pages)[p := pages[p]]
      ensures old(Users(at, at[p].file)) == 0 ==> live == old(live) + {frame} && pages[p] == frame && at[p].node == id
      ensures old(Users(at, at[p].file)) != 0 ==> live == old(live)
    {
      var file := at[p].file;
      var k := FindNode(file);
      if k < |nodes| {
        assert NodeOk(at, nodes, live, k);
        TouchKnown(at, nodes, pages, live, p, k);
        at := at[p := Attached(file, nodes[k].id)];
        pages := pages[p := nodes[k].pa];
        nodes := nodes[k := nodes[k].(count := nodes[k].count + 1)];
      } else {
        NoUsers(at, nodes, pages, live, file);
        TouchNew(at, nodes, pages, live, p, id, frame);
        at := at[p := Attached(file, id)];
        pages := pages[p := frame];
        nodes := nodes + [Node(id, file, 1, frame)];
        live := live + {frame};
      }
    }

    /** munmap of a touched mapping; `freed` says that the frame went back to the pool. The count goes down through
        the entry's own pointer, the node is unlinked by a walk for its file number. */
    method Unmap(p: PageId) returns (freed: bool)
      requires Valid() && p in at && at[p].Attached?
      modifies this
      ensures Valid() && at == old(at) - {p} && p in old(pages) && pages == old(pages) - {p}
      ensures freed <==> old(Users(at, at[p].file)) == 1
      ensures live == if freed then old(live) - {old(pages)[p]} else old(live)
    {
      NodeOfPage(at, nodes, pages, live, p);
      var k := Locate(nodes, at[p].node);
      freed := nodes[k].count - 1 == 0;
      if freed {
        UnmapLast(at, nodes, pages, live, p, k);
        live := live - {nodes[k].pa};
        var r := FindNode(nodes[k].file);
        nodes := nodes[..r] + nodes[r + 1..];
      } else {
        UnmapShared(at, nodes, pages, live, p, k);
        nodes := nodes[k := nodes[k].(count := nodes[k].count - 1)];
      }
      at := at - {p};
      pages := pages - {p};
    }

    /** The walk of the node list by file number. */
    method FindNode(file: File) returns (k: int)
      ensures k == Find(nodes, file)
    {
      k := 0;
      while k < |nodes| && nodes[k].file != file
        invariant 0 <= k <= |nodes| && forall j :: 0 <= j < k ==> nodes[j].file != file
      {
        k := k + 1;
      }
    }
  }
}
