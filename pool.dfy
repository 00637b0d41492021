/**
 * The managed-window pool of pool.h and pool.c: a singly linked list of
 * ManagedWindow records rooted at the pool's head, plus a second, non-owning
 * pointer `active` into the same records. The list is kept as real objects
 * linked through `next`; the ghost sequence Contents is the list read from
 * the head, and Valid() ties the two together.
 */
module Pool {
  import opened X11

  /** The C type `unsigned int` of the saved geometry fields. */
  newtype u32 = x: int | 0 <= x < 0x1_0000_0000

  /** The handle part of a record: the three windows and the back buffer. */
  datatype Record = Record(decorationWindow: Window, decorationBuffer: BackBuffer, actualWindow: Window, resizer: Window)

  /** struct ManagedWindow_t (pool.h:29-39). */
  class ManagedWindow {
    const decorationWindow: Window
    const decorationBuffer: BackBuffer
    const actualWindow: Window
    const resizer: Window
    var lastW: u32
    var lastH: u32
    var lastX: u32
    var lastY: u32
    var next: ManagedWindow?

    /** The initialisation addWindowToPool performs on a freshly allocated record (pool.c:42-51). */
    constructor (decorationWindow: Window, decorationBuffer: BackBuffer, actualWindow: Window,
                 resizer: Window, next: ManagedWindow?)
      ensures this.decorationWindow == decorationWindow && this.decorationBuffer == decorationBuffer
      ensures this.actualWindow == actualWindow && this.resizer == resizer
      ensures this.next == next
      ensures lastW == 0 && lastH == 0 && lastX == 0 && lastY == 0
    {
      this.resizer := resizer;
      this.actualWindow := actualWindow;
      this.decorationWindow := decorationWindow;
      this.next := next;
      lastH := 0;
      lastW := 0;
      lastX := 0;
      lastY := 0;
      this.decorationBuffer := decorationBuffer;
    }
  }

  function RecordOf(mw: ManagedWindow): Record {
    Record(mw.decorationWindow, mw.decorationBuffer, mw.actualWindow, mw.resizer)
  }

  /** The handles of a list of records, in list order. */
  function RecordsOf(s: seq<ManagedWindow>): (r: seq<Record>)
    ensures |r| == |s| && forall i | 0 <= i < |s| :: r[i] == RecordOf(s[i])
  {
    seq(|s|, i requires 0 <= i < |s| => RecordOf(s[i]))
  }

  /** The lookup test of managedWindowForWindow: the decoration or the client, never the resizer. */
  predicate Matches(r: Record, w: Window) {
    r.decorationWindow == w || r.actualWindow == w
  }

  /** The position of the first record, from the head, that the handle matches; |s| if none does. */
  function FindIndex(s: seq<Record>, w: Window): (k: nat)
    ensures k <= |s|
    ensures forall j | 0 <= j < k :: !Matches(s[j], w)
    ensures k < |s| ==> Matches(s[k], w)
  {
    if s == [] then 0
    else if Matches(s[0], w) then 0
    else 1 + FindIndex(s[1..], w)
  }

  /** Some record of the list answers to the handle. */
  predicate Tracked(s: seq<Record>, w: Window) {
    FindIndex(s, w) < |s|
  }

  /** No record appears twice in the list. */
  ghost predicate Distinct(s: seq<ManagedWindow>) {
    forall i, j | 0 <= i < j < |s| :: s[i] != s[j]
  }

  /** The position of the first occurrence of a record; |s| if it is not in the list. */
  function IndexOf(s: seq<ManagedWindow>, mw: ManagedWindow?): (k: nat)
    ensures k <= |s|
    ensures forall j | 0 <= j < k :: s[j] != mw
    ensures k < |s| ==> s[k] == mw
  {
    if s == [] then 0
    else if s[0] == mw then 0
    else 1 + IndexOf(s[1..], mw)
  }

  /** A list with the element at position k cut out; the later elements move up by one. */
  function Cut<T>(s: seq<T>, k: nat): (r: seq<T>)
    requires k < |s|
    ensures |r| == |s| - 1
    ensures forall i | 0 <= i < |r| :: r[i] == s[if i < k then i else i + 1]
  {
    s[..k] + s[k + 1..]
  }

  /**
   * The list after unlinking one record: its first occurrence is cut out;
   * a record not in the list leaves the list as it is.
   */
  function Unlinked(s: seq<ManagedWindow>, mw: ManagedWindow?): (r: seq<ManagedWindow>)
    ensures mw !in s ==> r == s
    ensures mw in s ==> |r| == |s| - 1
  {
    var k := IndexOf(s, mw);
    if k == |s| then s else Cut(s, k)
  }

  /** Cutting one element out of a list without repetitions keeps it without repetitions. */
  lemma CutDistinct(s: seq<ManagedWindow>, k: nat)
    requires Distinct(s) && k < |s|
    ensures Distinct(Cut(s, k))
  {
    var r := Cut(s, k);
    forall i, j | 0 <= i < j < |r| ensures r[i] != r[j] {
      assert r[i] == s[if i < k then i else i + 1];
      assert r[j] == s[if j < k then j else j + 1];
    }
  }

  /** In a list without repetitions, cutting position k out removes exactly the record found there. */
  lemma CutMembers(s: seq<ManagedWindow>, k: nat, n: ManagedWindow)
    requires Distinct(s) && k < |s|
    ensures n in Cut(s, k) <==> n in s && n != s[k]
  {
    var r := Cut(s, k);
    if n in r {
      var i :| 0 <= i < |r| && r[i] == n;
      assert n == s[if i < k then i else i + 1];
    }
    if n in s && n != s[k] {
      var i :| 0 <= i < |s| && s[i] == n;
      assert n == r[if i < k then i else i - 1];
    }
  }

  /** In a list without repetitions, the unlinked record is gone and every other one remains. */
  lemma UnlinkedMembers(s: seq<ManagedWindow>, mw: ManagedWindow?, n: ManagedWindow)
    requires Distinct(s)
    ensures Distinct(Unlinked(s, mw))
    ensures n in Unlinked(s, mw) <==> n in s && n != mw
  {
    var k := IndexOf(s, mw);
    if k < |s| {
      CutDistinct(s, k);
      CutMembers(s, k, n);
    }
  }

  /** Unlinking a record a second time changes nothing. */
  lemma UnlinkTwice(s: seq<ManagedWindow>, mw: ManagedWindow?)
    requires Distinct(s)
    ensures Unlinked(Unlinked(s, mw), mw) == Unlinked(s, mw)
  {
    if mw != null {
      UnlinkedMembers(s, mw, mw);
    }
  }

  /** In a list without repetitions a record's first occurrence is its only one. */
  lemma IndexOfDistinct(s: seq<ManagedWindow>, k: nat)
    requires Distinct(s) && k < |s|
    ensures IndexOf(s, s[k]) == k
  {
    var j := IndexOf(s, s[k]);
    assert j <= k;
    assert s[j] == s[k];
  }

  /** Unlinking the record at position k of a list without repetitions removes exactly the k-th handle record. */
  lemma RecordsOfUnlinked(s: seq<ManagedWindow>, k: nat)
    requires Distinct(s) && k < |s|
    ensures IndexOf(s, s[k]) == k
    ensures RecordsOf(Unlinked(s, s[k])) == Cut(RecordsOf(s), k)
  {
    IndexOfDistinct(s, k);
    RecordsOfCut(s, k);
  }

  /** The handle records of a list with position k cut out. */
  lemma RecordsOfCut(s: seq<ManagedWindow>, k: nat)
    requires k < |s|
    ensures RecordsOf(Cut(s, k)) == Cut(RecordsOf(s), k)
  {
    var r, rs, ss := Cut(s, k), RecordsOf(Cut(s, k)), RecordsOf(s);
    forall i | 0 <= i < |rs| ensures rs[i] == Cut(ss, k)[i] {
      assert r[i] == s[if i < k then i else i + 1];
    }
  }

  /** Prepending a record prepends its handles. */
  lemma RecordsOfPrepend(mw: ManagedWindow, s: seq<ManagedWindow>)
    ensures RecordsOf([mw] + s) == [RecordOf(mw)] + RecordsOf(s)
  {
    assert forall i | 1 <= i < |s| + 1 :: ([mw] + s)[i] == s[i - 1];
  }

  /** struct ManagedWindowPool_t (pool.h:43-46) with the operations of pool.c. */
  class ManagedWindowPool {
    var head: ManagedWindow?
    var active: ManagedWindow?
    ghost var Contents: seq<ManagedWindow>

    /** head starts the chain of `next` pointers that visits Contents in order and ends in null. */
    ghost predicate Valid()
      reads this, Contents
    {
      && head == (if Contents == [] then null else Contents[0])
      && (forall i {:trigger Contents[i].next} | 0 <= i < |Contents| ::
            Contents[i].next == (if i + 1 < |Contents| then Contents[i + 1] else null))
      && Distinct(Contents)
    }

    /** The records the list is made of. */
    ghost function Nodes(): set<ManagedWindow>
      reads this
    {
      set n | n in Contents
    }

    /** createPool (pool.c:28-33): an empty list and no active record. */
    constructor ()
      ensures Valid() && Contents == [] && head == null && active == null
    {
      head := null;
      active := null;
      Contents := [];
    }

    /**
     * addWindowToPool (pool.c:35-56). `allocOk` is whether malloc
     * succeeded and `buffer` the back buffer the server hands out for the
     * decoration. On success the new record becomes the head and the old
     * records follow it in their order; on failure the pool is unchanged and
     * the result is null.
     */
    method AddWindow(decorationWindow: Window, actualWindow: Window, resizer: Window,
                     buffer: BackBuffer, allocOk: bool) returns (mw: ManagedWindow?)
      requires Valid()
      modifies this
      ensures Valid() && active == old(active)
      ensures !allocOk ==> mw == null && Contents == old(Contents)
      ensures allocOk ==> mw != null && fresh(mw) && Contents == [mw] + old(Contents)
      ensures allocOk ==> RecordOf(mw) == Record(decorationWindow, buffer, actualWindow, resizer)
      ensures allocOk ==> mw.lastW == 0 && mw.lastH == 0 && mw.lastX == 0 && mw.lastY == 0
    {
      if !allocOk {
        return null;
      }
      ghost var before := Contents;
      mw := new ManagedWindow(decorationWindow, buffer, actualWindow, resizer, head);
      head := mw;
      Contents := [mw] + Contents;
      assert forall i | 1 <= i < |Contents| :: Contents[i] == before[i - 1];
    }

    /** activateWindowInPool (pool.c:58-61): `active` becomes the lookup result, nothing else changes. */
    method Activate(w: Window)
      requires Valid()
      modifies this`active
      ensures Valid() && Contents == old(Contents)
      ensures var k := FindIndex(RecordsOf(Contents), w);
        active == if k < |Contents| then Contents[k] else null
    {
      active := Lookup(w);
    }

    /**
     * removeWindowFromPool (pool.c:63-81). The C code reads head->next, so
     * the list must not be empty. It unlinks the first occurrence of the
     * record and leaves the others in order; a record that is not in the
     * list changes nothing. `active` is never touched, so it may go on naming
     * the unlinked record. The back buffer is handed back to the server only
     * when the record was the head (`released`).
     */
    method RemoveWindow(mw: ManagedWindow?) returns (released: bool)
      requires Valid() && Contents != []
      modifies this, Contents`next
      ensures Valid() && active == old(active)
      ensures Contents == Unlinked(old(Contents), mw) && Nodes() <= old(Nodes())
      ensures released <==> old(Contents)[0] == mw
    {
      if head == mw {
        UnlinkHead();
        released := true;
      } else {
        UnlinkBeyondHead(mw);
        released := false;
      }
      forall n | n in Nodes() ensures n in old(Nodes()) {
        UnlinkedMembers(old(Contents), mw, n);
      }
    }

    /** The search of removeWindowFromPool (pool.c:72-80) past a head that is not `mw`. */
    method UnlinkBeyondHead(mw: ManagedWindow?)
      requires Valid() && Contents != [] && head != mw
      modifies this, Contents`next
      ensures Valid() && active == old(active)
      ensures Contents == Unlinked(old(Contents), mw)
    {
      var last: ManagedWindow? := null;
      var node := head;
      ghost var i := 0;
      while node.next != null
        invariant 0 <= i < |Contents| && node == Contents[i]
        invariant forall j | 0 <= j <= i :: Contents[j] != mw
        invariant 0 < i ==> last == Contents[i - 1]
        decreases |Contents| - i
      {
        last := node;
        node := node.next;
        i := i + 1;
        if node == mw {
          break;
        }
      }
      if node == mw {
        assert IndexOf(Contents, mw) == i;
        UnlinkAfter(last, i);
      }
    }

    /** The head case of removeWindowFromPool (pool.c:66-70): the second record becomes the head. */
    method UnlinkHead()
      requires Valid() && Contents != []
      modifies this`head, this`Contents
      ensures Valid() && Contents == Cut(old(Contents), 0)
    {
      ghost var C := Contents;
      head := head.next;
      Contents := Cut(C, 0);
      forall j | 0 <= j < |Contents|
        ensures Contents[j].next == (if j + 1 < |Contents| then Contents[j + 1] else null)
      {
        assert Contents[j] == C[j + 1];
      }
      CutDistinct(C, 0);
    }

    /**
     * The pointer surgery of removeWindowFromPool (pool.c:76): the record
     * after `last`, at position i, is bypassed and drops out of the list.
     */
    method UnlinkAfter(last: ManagedWindow, ghost i: nat)
      requires Valid() && 0 < i < |Contents| && Contents[i - 1] == last
      modifies this`Contents, last`next
      ensures Valid() && Contents == Cut(old(Contents), i)
    {
      ghost var C := Contents;
      last.next := last.next.next;
      Contents := Cut(C, i);
      forall j | 0 <= j < |Contents|
        ensures Contents[j].next == (if j + 1 < |Contents| then Contents[j + 1] else null)
      {
        if j < i - 1 {
          assert Contents[j] == C[j] && Contents[j + 1] == C[j + 1] && C[j] != last;
        } else if j >= i {
          assert Contents[j] == C[j + 1] && C[j + 1] != last;
        }
      }
      CutDistinct(C, i);
    }

    /**
     * managedWindowForWindow (pool.c:83-92): the first record from the head
     * whose decoration or client is the handle, or null.
     */
    method Lookup(w: Window) returns (mw: ManagedWindow?)
      requires Valid()
      ensures var k := FindIndex(RecordsOf(Contents), w);
        mw == if k < |Contents| then Contents[k] else null
    {
      var node := head;
      ghost var i := 0;
      while node != null
        invariant 0 <= i <= |Contents|
        invariant node == if i < |Contents| then Contents[i] else null
        invariant forall j | 0 <= j < i :: !Matches(RecordOf(Contents[j]), w)
        decreases |Contents| - i
      {
        if node.decorationWindow == w || node.actualWindow == w {
          return node;
        }
        node := node.next;
        i := i + 1;
      }
      return null;
    }

    /**
     * destroyPool (pool.c:94-103): frees every record from the head on;
     * like removeWindowFromPool it reads head->next and needs a non-empty
     * list. `released` lists the records in the order they are freed.
     */
    method Destroy() returns (released: seq<ManagedWindow>)
      requires Valid() && Contents != []
      modifies this
      ensures Valid() && Contents == [] && active == old(active)
      ensures released == old(Contents)
    {
      var node := head;
      released := [];
      while node.next != null
        invariant Valid()
        invariant |released| < |Contents| && node == Contents[|released|]
        invariant released == Contents[..|released|]
        decreases |Contents| - |released|
      {
        var last := node;
        node := node.next;
        released := released + [last];
      }
      released := released + [node];
      head := null;
      Contents := [];
    }
  }
}
