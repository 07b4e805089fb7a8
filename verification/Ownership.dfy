/** src/util.c, src/object.c and src/macro.h: who holds an object. Rooms, characters and objects hold
    objects on intrusive lists; every object names its holder; extract_obj destroys an object with
    everything inside it. */
module Ownership {
  import opened Shared

  /** An address; 0 is NULL. */
  type Ref = nat

  const NULL: Ref := 0

  /** The memory, one map from addresses for every struct field, and the head of the global list. */
  datatype Memory = Memory(
    // struct object
    next: map<Ref, Ref>, nextContent: map<Ref, Ref>, contains: map<Ref, Ref>,
    inRoom: map<Ref, Ref>, carriedBy: map<Ref, Ref>, inObj: map<Ref, Ref>,
    // struct room, struct character
    objects: map<Ref, Ref>, carrying: map<Ref, Ref>,
    // first_object
    firstObject: Ref)

  datatype Owner = Nowhere | InRoom(room: Ref) | OnChar(who: Ref) | InObj(obj: Ref)

  /** The holder of every object, the list of every holder, and the list of all objects. */
  datatype View = View(owner: map<Ref, Owner>, list: map<Owner, seq<Ref>>, all: seq<Ref>)

  // ---------------------------------------------------------------- linked lists

  function At(s: seq<Ref>, i: nat): Ref {
    if i < |s| then s[i] else NULL
  }

  /** What the next-pointers say of a list that ends with NULL. */
  ghost predicate Chained(s: seq<Ref>, next: map<Ref, Ref>) {
    && (forall o :: o in s ==> o in next)
    && forall i {:trigger next[s[i]]} :: 0 <= i < |s| ==> next[s[i]] == At(s, i + 1)
  }

  ghost predicate GoodList(s: seq<Ref>, next: map<Ref, Ref>) {
    NoDuplicates(s) && NULL !in s && Chained(s, next)
  }

  /** The list without one element, the order of the others kept. */
  function Without(s: seq<Ref>, x: Ref): (r: seq<Ref>)
    ensures forall o :: o in r <==> o in s && o != x
    ensures x !in s ==> r == s
  {
    if s == [] then [] else if s[0] == x then Without(s[1..], x) else [s[0]] + Without(s[1..], x)
  }

  lemma {:induction false} WithoutBetween(a: seq<Ref>, x: Ref, b: seq<Ref>)
    requires x !in a && x !in b
    ensures Without(a + ([x] + b), x) == a + b
  {
    var s := a + ([x] + b);
    if a == [] {
      assert s == [x] + b && s[1..] == b;
    } else {
      assert s[1..] == a[1..] + ([x] + b) && s[0] == a[0];
      WithoutBetween(a[1..], x, b);
      assert [a[0]] + (a[1..] + b) == a + b;
    }
  }

  lemma {:induction false} WithoutAt(s: seq<Ref>, i: int)
    requires NoDuplicates(s) && 0 <= i < |s|
    ensures Without(s, s[i]) == s[..i] + s[i + 1..]
  {
    var a, x, b := s[..i], s[i], s[i + 1..];
    assert x !in a && x !in b;
    hide Without;
    WithoutBetween(a, x, b);
    assert s == a + ([x] + b);
  }

  lemma {:induction false} GoodListElsewhere(s: seq<Ref>, next: map<Ref, Ref>, next': map<Ref, Ref>)
    requires GoodList(s, next) && forall o :: o in s ==> o in next' && next'[o] == next[o]
    ensures GoodList(s, next')
  {
    forall i | 0 <= i < |s|
      ensures s[i] in next' && next'[s[i]] == At(s, i + 1)
    {
      assert s[i] in s;
    }
  }

  lemma {:induction false} LinkedFront(s: seq<Ref>, o: Ref, next: map<Ref, Ref>)
    requires GoodList(s, next) && o !in s && o != NULL
    ensures GoodList([o] + s, next[o := At(s, 0)])
  {
    var t, next' := [o] + s, next[o := At(s, 0)];
    NoDuplicatesInFront(s, o);
    hide NoDuplicates;
    forall i | 0 <= i < |t|
      ensures t[i] in next' && next'[t[i]] == At(t, i + 1)
    {
      if i > 0 {
        assert t[i] == s[i - 1] && s[i - 1] in s;
      }
    }
  }

  lemma {:induction false} NoDuplicatesInFront(s: seq<Ref>, o: Ref)
    requires NoDuplicates(s) && o !in s
    ensures NoDuplicates([o] + s)
  {
  }

  lemma {:induction false} NoDuplicatesWithout(s: seq<Ref>, i: int)
    requires NoDuplicates(s) && 0 <= i < |s|
    ensures NoDuplicates(s[..i] + s[i + 1..])
  {
  }

  lemma {:induction false} OthersDiffer(s: seq<Ref>, i: int, j: int)
    requires NoDuplicates(s) && 0 <= i < |s| && 0 <= j < |s| && i != j && NULL !in s
    ensures s[j] != s[i] && (At(s, j + 1) == s[i] <==> j + 1 == i)
  {
    assert s[i] in s;
  }

  /** The next-pointers once the element before i points past it. */
  ghost function Closed(s: seq<Ref>, i: int, next: map<Ref, Ref>): map<Ref, Ref>
    requires 0 <= i < |s|
  {
    if i == 0 then next else next[s[i - 1] := At(s, i + 1)]
  }

  lemma {:induction false} GoodListWithout(s: seq<Ref>, i: int, next: map<Ref, Ref>)
    requires GoodList(s, next) && 0 <= i < |s|
    ensures GoodList(Without(s, s[i]), Closed(s, i, next))
  {
    WithoutAt(s, i);
    NoDuplicatesWithout(s, i);
    var t, next' := s[..i] + s[i + 1..], Closed(s, i, next);
    hide Without, NoDuplicates;
    forall k | 0 <= k < |t|
      ensures t[k] in next' && next'[t[k]] == At(t, k + 1)
    {
      var j := if k < i then k else k + 1;
      OthersDiffer(s, i, j);
      if 0 < i && j != i - 1 {
        OthersDiffer(s, i - 1, j);
      }
      assert t[k] == s[j] && s[j] in s;
      assert next[s[j]] == At(s, j + 1);
    }
  }

  /** The UNLINK macro: takes one element out of a list and leaves every pointer but one as it was. */
  method UnlinkMacro(plist: Ref, pdata: Ref, next: map<Ref, Ref>, ghost s: seq<Ref>)
    returns (head: Ref, next': map<Ref, Ref>)
    requires GoodList(s, next) && plist == At(s, 0) && pdata in next && pdata != NULL
    ensures GoodList(Without(s, pdata), next') && head == At(Without(s, pdata), 0)
    ensures next'.Keys == next.Keys && next'[pdata] == next[pdata]
    ensures forall o :: o in next && o !in s ==> next'[o] == next[o]
    ensures pdata !in s ==> next' == next && head == plist
  {
    head, next' := plist, next;
    if plist == pdata {
      head := next[pdata];
      GoodListWithout(s, 0, next);
      WithoutAt(s, 0);
      assert next[s[0]] == At(s, 1);
    } else {
      var prev := plist;
      ghost var j := 0;
      while prev != NULL
        invariant 0 <= j <= |s| && prev == At(s, j)
        invariant forall k :: 0 <= k <= j && k < |s| ==> s[k] != pdata
        invariant next' == next
        decreases |s| - j
      {
        assert prev in s && next[s[j]] == At(s, j + 1);
        if next[prev] == pdata {
          next' := next[prev := next[pdata]];
          GoodListWithout(s, j + 1, next);
          WithoutAt(s, j + 1);
          assert next[s[j + 1]] == At(s, j + 2);
          return;
        }
        prev := next[prev];
        j := j + 1;
      }
      assert j == |s|;
    }
  }

  // ---------------------------------------------------------------- holders

  /** Every held object is on exactly one list, once: the list of the holder it names. */
  ghost predicate Good(v: View, next: map<Ref, Ref>) {
    && Nowhere !in v.list && NULL !in v.owner
    && (forall o {:trigger InObj(o)} :: o in v.owner ==> InObj(o) in v.list)
    && (forall o :: o in v.owner && v.owner[o] != Nowhere ==> v.owner[o] in v.list && o in v.list[v.owner[o]])
    && (forall w, o :: w in v.list && o in v.list[w] ==> o in v.owner && v.owner[o] == w)
    && (forall w :: w in v.list ==> GoodList(v.list[w], next))
  }

  /** The object's three holder fields name its holder, or are all NULL. */
  ghost predicate NamesOwner(m: Memory, o: Ref, w: Owner) {
    && o in m.inRoom && o in m.carriedBy && o in m.inObj
    && m.inRoom[o] == (if w.InRoom? then w.room else NULL)
    && m.carriedBy[o] == (if w.OnChar? then w.who else NULL)
    && m.inObj[o] == (if w.InObj? then w.obj else NULL)
  }

  /** The holder's field points to the front of its list. */
  ghost predicate PointsTo(m: Memory, w: Owner, first: Ref) {
    match w
    case Nowhere => false
    case InRoom(r) => r != NULL && r in m.objects && m.objects[r] == first
    case OnChar(c) => c != NULL && c in m.carrying && m.carrying[c] == first
    case InObj(o) => o != NULL && o in m.contains && m.contains[o] == first
  }

  ghost predicate Allocated(m: Memory, objs: set<Ref>) {
    && m.next.Keys == objs && m.nextContent.Keys == objs && m.contains.Keys == objs
    && m.inRoom.Keys == objs && m.carriedBy.Keys == objs && m.inObj.Keys == objs
  }

  ghost predicate Named(m: Memory, v: View) {
    Allocated(m, v.owner.Keys) && forall o :: o in v.owner ==> NamesOwner(m, o, v.owner[o])
  }

  ghost predicate Headed(m: Memory, v: View) {
    && (forall w :: w in v.list ==> PointsTo(m, w, At(v.list[w], 0)))
    && (forall o :: InObj(o) in v.list ==> o in v.owner)
  }

  /** first_object lists exactly the objects. */
  ghost predicate AllListed(m: Memory, v: View) {
    GoodList(v.all, m.next) && m.firstObject == At(v.all, 0) && (forall o :: o in v.all <==> o in v.owner)
  }

  /** Every room and every character has a list. */
  ghost predicate HoldersListed(m: Memory, v: View) {
    && (forall r :: r in m.objects <==> InRoom(r) in v.list)
    && (forall c :: c in m.carrying <==> OnChar(c) in v.list)
  }

  ghost predicate Valid(m: Memory, v: View) {
    Named(m, v) && Headed(m, v) && Good(v, m.nextContent) && AllListed(m, v) && HoldersListed(m, v)
  }

  /** No view agrees with the memory. */
  ghost predicate Broken(m: Memory) {
    forall v :: !Valid(m, v)
  }

  ghost function Link(v: View, o: Ref, w: Owner): View
    requires w in v.list
  {
    v.(owner := v.owner[o := w], list := v.list[w := [o] + v.list[w]])
  }

  ghost function Unlink(v: View, o: Ref): View
    requires o in v.owner && v.owner[o] in v.list
  {
    v.(owner := v.owner[o := Nowhere], list := v.list[v.owner[o] := Without(v.list[v.owner[o]], o)])
  }

  /** A linked object is at the front of its new holder's list and names it; an unlinked one is on no list and names
      nobody. Every other object and every other list stays as it was. */
  lemma {:induction false} LinksInFull(v: View, o: Ref, w: Owner, x: Ref, u: Owner)
    requires x in v.owner && u in v.list
    ensures w in v.list ==>
              var r := Link(v, o, w);
              && o in r.owner && r.owner[o] == w && w in r.list && r.list[w] == [o] + v.list[w] && r.all == v.all
              && (x != o ==> r.owner[x] == v.owner[x]) && u in r.list && (u != w ==> r.list[u] == v.list[u])
    ensures o in v.owner && v.owner[o] in v.list && NoDuplicates(v.list[v.owner[o]]) ==>
              var r, was := Unlink(v, o), v.list[v.owner[o]];
              && r.owner[o] == Nowhere && r.all == v.all && (x != o ==> r.owner[x] == v.owner[x])
              && u in r.list && (u != v.owner[o] ==> r.list[u] == v.list[u])
              && (forall i :: 0 <= i < |was| && was[i] == o ==> r.list[v.owner[o]] == was[..i] + was[i + 1..])
  {
    if o in v.owner && v.owner[o] in v.list && NoDuplicates(v.list[v.owner[o]]) {
      var was := v.list[v.owner[o]];
      forall i | 0 <= i < |was| && was[i] == o
        ensures Without(was, o) == was[..i] + was[i + 1..]
      {
        WithoutAt(was, i);
      }
    }
  }

  /** The memory after the assignments of obj_to_room, obj_to_char or obj_to_obj. */
  ghost function LinkedMemory(m: Memory, o: Ref, w: Owner): Memory
    requires w != Nowhere
    requires w.InRoom? ==> w.room in m.objects
    requires w.OnChar? ==> w.who in m.carrying
    requires w.InObj? ==> w.obj in m.contains
  {
    var first := if w.InRoom? then m.objects[w.room] else if w.OnChar? then m.carrying[w.who] else m.contains[w.obj];
    m.(nextContent := m.nextContent[o := first],
       objects := if w.InRoom? then m.objects[w.room := o] else m.objects,
       carrying := if w.OnChar? then m.carrying[w.who := o] else m.carrying,
       contains := if w.InObj? then m.contains[w.obj := o] else m.contains,
       inRoom := m.inRoom[o := if w.InRoom? then w.room else NULL],
       carriedBy := m.carriedBy[o := if w.OnChar? then w.who else NULL],
       inObj := m.inObj[o := if w.InObj? then w.obj else NULL])
  }

  lemma {:induction false} LinkKeepsGood(v: View, next: map<Ref, Ref>, o: Ref, w: Owner)
    requires Good(v, next) && o in v.owner && w in v.list && v.owner[o] == Nowhere
    ensures Good(Link(v, o, w), next[o := At(v.list[w], 0)])
  {
    var v', next' := Link(v, o, w), next[o := At(v.list[w], 0)];
    LinkedFront(v.list[w], o, next);
    hide GoodList;
    forall u | u in v'.list
      ensures GoodList(v'.list[u], next')
    {
      if u != w {
        GoodListElsewhere(v.list[u], next, next');
      }
    }
  }

  /** Two lists agree up to the first place of an object whose next-pointer is the only one that differs. */
  lemma {:induction false} ChainsAgree(s: seq<Ref>, s': seq<Ref>, off: nat, next: map<Ref, Ref>, o: Ref, first: Ref,
      i: nat)
    requires Chained(s, next) && Chained(s', next[o := first]) && NULL !in s
    requires At(s', off) == At(s, 0) && i < |s| && forall k :: 0 <= k < i ==> s[k] != o
    ensures off + i < |s'| && s'[off + i] == s[i]
  {
    assert s[i] in s;
    if i > 0 {
      ChainsAgree(s, s', off, next, o, first, i - 1);
      assert next[s[i - 1]] == At(s, i) && next[o := first][s'[off + i - 1]] == At(s', off + i);
    }
  }

  lemma {:induction false} FirstPlace(s: seq<Ref>, o: Ref) returns (i: nat)
    requires o in s
    ensures i < |s| && s[i] == o && forall k :: 0 <= k < i ==> s[k] != o
  {
    i := 0;
    while s[i] != o
      invariant i < |s| && forall k :: 0 <= k < i ==> s[k] != o
      decreases |s| - i
    {
      i := i + 1;
    }
  }

  /** What the memory after linking says about the old holder's list in whatever view it is valid for. */
  lemma {:induction false} ListAfterLink(m: Memory, v': View, o: Ref, w: Owner, u: Owner, first: Ref, head: Ref)
    requires PointsTo(m, w, first) && PointsTo(m, u, head) && (u == w ==> head == first)
    requires u in v'.list && Headed(LinkedMemory(m, o, w), v') && Good(v', LinkedMemory(m, o, w).nextContent)
    ensures LinkedMemory(m, o, w).nextContent == m.nextContent[o := first]
    ensures Chained(v'.list[u], m.nextContent[o := first])
    ensures At(v'.list[u], 0) == if u == w then o else head
  {
    var m' := LinkedMemory(m, o, w);
    assert PointsTo(m', u, At(v'.list[u], 0));
    assert GoodList(v'.list[u], m'.nextContent);
    hide Headed, Good;
  }

  lemma {:induction false} HolderStays(m: Memory, v: View, v': View, o: Ref, w: Owner, u: Owner, first: Ref, head: Ref)
    requires PointsTo(m, w, first) && PointsTo(m, u, head) && o in v.owner
    requires Allocated(m, v.owner.Keys) && Allocated(LinkedMemory(m, o, w), v'.owner.Keys)
    requires HoldersListed(LinkedMemory(m, o, w), v') && forall x :: x in v'.owner ==> InObj(x) in v'.list
    ensures u in v'.list
  {
    LinkKeepsAllocated(m, v.owner.Keys, o, w);
  }

  /** The list of the old holder still leads to an object that was linked elsewhere. */
  lemma {:induction false} StillLeadsTo(s: seq<Ref>, s': seq<Ref>, next: map<Ref, Ref>, o: Ref, first: Ref)
    requires GoodList(s, next) && o in s && Chained(s', next[o := first]) && At(s', 0) == At(s, 0)
    ensures o in s'
  {
    var i := FirstPlace(s, o);
    ChainsAgree(s, s', 0, next, o, first, i);
  }

  /** A list that leads to an object again after the object was put in front of it has it twice. */
  lemma {:induction false} LeadsToTwice(s: seq<Ref>, s': seq<Ref>, next: map<Ref, Ref>, o: Ref)
    requires GoodList(s, next) && o in s && Chained(s', next[o := At(s, 0)]) && At(s', 0) == o
    ensures !NoDuplicates(s')
  {
    var i := FirstPlace(s, o);
    assert o != NULL && s' != [] && s'[0] == o;
    assert next[o := At(s, 0)][s'[0]] == At(s', 1);
    ChainsAgree(s, s', 1, next, o, At(s, 0), i);
    assert s'[0] == s'[i + 1];
  }

  /** An object that was linked while a holder still held it leaves a memory that no view agrees with. */
  lemma {:induction false} RelinkedIsInvalid(m: Memory, v: View, v': View, o: Ref, w: Owner)
    requires Valid(m, v) && o in v.owner && w in v.list && v.owner[o] != Nowhere
    requires PointsTo(m, w, At(v.list[w], 0))
    ensures !Valid(LinkedMemory(m, o, w), v')
  {
    var u, m' := v.owner[o], LinkedMemory(m, o, w);
    if Valid(m', v') {
      HolderOf(m, v, o);
      hide PointsTo, LinkedMemory, GoodList, NamesOwner, Allocated;
      HolderStays(m, v, v', o, w, u, At(v.list[w], 0), At(v.list[u], 0));
      ListAfterLink(m, v', o, w, u, At(v.list[w], 0), At(v.list[u], 0));
      assert GoodList(v'.list[u], m'.nextContent);
      hide *;
      if u == w {
        ListIsDistinct(v'.list[u], m'.nextContent);
        LeadsToTwice(v.list[u], v'.list[u], m.nextContent, o);
      } else {
        StillLeadsTo(v.list[u], v'.list[u], m.nextContent, o, At(v.list[w], 0));
        OneName(m, v', o, w, u, At(v.list[w], 0), At(v.list[u], 0));
      }
    }
  }

  lemma {:induction false} ListIsDistinct(s: seq<Ref>, next: map<Ref, Ref>)
    requires GoodList(s, next)
    ensures NoDuplicates(s)
  {
  }

  lemma {:induction false} OneName(m: Memory, v': View, o: Ref, w: Owner, u: Owner, first: Ref, head: Ref)
    requires PointsTo(m, w, first) && PointsTo(m, u, head) && u in v'.list && o in v'.list[u]
    requires Valid(LinkedMemory(m, o, w), v')
    ensures u == w
  {
    assert v'.owner[o] == u && NamesOwner(LinkedMemory(m, o, w), o, u);
    hide Valid, GoodList;
  }

  /** Linking leaves the lists and the holder fields in agreement exactly when the object was detached; otherwise
      there is no view at all that the memory agrees with. */
  lemma {:induction false} LinkKeepsValidIff(m: Memory, v: View, o: Ref, w: Owner)
    requires Valid(m, v) && o in v.owner && w in v.list
    ensures PointsTo(m, w, At(v.list[w], 0))
    ensures v.owner[o] == Nowhere ==> Valid(LinkedMemory(m, o, w), Link(v, o, w))
    ensures v.owner[o] != Nowhere ==> Broken(LinkedMemory(m, o, w))
  {
    assert PointsTo(m, w, At(v.list[w], 0));
    if v.owner[o] == Nowhere {
      hide Good, Named, AllListed, GoodList, Headed, HoldersListed;
      ObjectsAreNotNull(v, m.nextContent, o);
      LinkKeepsGood(v, m.nextContent, o, w);
      LinkKeepsRest(m, v, o, w);
    } else {
      hide Valid;
      forall v'
        ensures !Valid(LinkedMemory(m, o, w), v')
      {
        RelinkedIsInvalid(m, v, v', o, w);
      }
    }
  }

  lemma {:induction false} ObjectsAreNotNull(v: View, next: map<Ref, Ref>, o: Ref)
    requires Good(v, next) && o in v.owner
    ensures o != NULL
  {
  }

  lemma {:induction false} LinkKeepsRest(m: Memory, v: View, o: Ref, w: Owner)
    requires Named(m, v) && Headed(m, v) && AllListed(m, v) && HoldersListed(m, v) && o in v.owner && w in v.list
    requires PointsTo(m, w, At(v.list[w], 0)) && o != NULL
    ensures var m', v' := LinkedMemory(m, o, w), Link(v, o, w);
            Named(m', v') && Headed(m', v') && AllListed(m', v') && HoldersListed(m', v')
  {
    LinkKeepsHeaded(m, v, o, w);
    LinkKeepsNamed(m, v, o, w);
    LinkKeepsHolders(m, v, o, w);
    hide Named, Headed, GoodList, PointsTo, HoldersListed;
  }

  lemma {:induction false} LinkKeepsHolders(m: Memory, v: View, o: Ref, w: Owner)
    requires HoldersListed(m, v) && w in v.list && PointsTo(m, w, At(v.list[w], 0))
    ensures HoldersListed(LinkedMemory(m, o, w), Link(v, o, w))
  {
    assert Link(v, o, w).list.Keys == v.list.Keys;
    assert LinkedMemory(m, o, w).objects.Keys == m.objects.Keys;
    assert LinkedMemory(m, o, w).carrying.Keys == m.carrying.Keys;
  }

  lemma {:induction false} LinkKeepsAllocated(m: Memory, objs: set<Ref>, o: Ref, w: Owner)
    requires Allocated(m, objs) && o in objs
    requires w != Nowhere && (w.InRoom? ==> w.room in m.objects) && (w.OnChar? ==> w.who in m.carrying)
    requires w.InObj? ==> w.obj in m.contains
    ensures Allocated(LinkedMemory(m, o, w), objs)
  {
  }

  lemma {:induction false} LinkKeepsNamed(m: Memory, v: View, o: Ref, w: Owner)
    requires Named(m, v) && o in v.owner && w in v.list && PointsTo(m, w, At(v.list[w], 0))
    ensures Named(LinkedMemory(m, o, w), Link(v, o, w))
  {
    var m', v' := LinkedMemory(m, o, w), Link(v, o, w);
    LinkKeepsAllocated(m, v.owner.Keys, o, w);
    assert v'.owner.Keys == v.owner.Keys;
    hide Allocated, PointsTo;
    forall x | x in v'.owner
      ensures NamesOwner(m', x, v'.owner[x])
    {
      assert x == o || NamesOwner(m, x, v.owner[x]);
    }
  }

  lemma {:induction false} LinkKeepsHeaded(m: Memory, v: View, o: Ref, w: Owner)
    requires Headed(m, v) && o in v.owner && w in v.list && PointsTo(m, w, At(v.list[w], 0))
    ensures Headed(LinkedMemory(m, o, w), Link(v, o, w))
  {
    var m', v' := LinkedMemory(m, o, w), Link(v, o, w);
    forall u | u in v'.list
      ensures PointsTo(m', u, At(v'.list[u], 0))
    {
      assert PointsTo(m, u, At(v.list[u], 0));
    }
  }

  /** The memory after UNLINK on the holder's list and the assignments that follow it. */
  ghost function UnlinkedMemory(m: Memory, o: Ref, w: Owner, head: Ref, next': map<Ref, Ref>): Memory {
    m.(nextContent := next'[o := NULL],
       objects := if w.InRoom? then m.objects[w.room := head] else m.objects,
       carrying := if w.OnChar? then m.carrying[w.who := head] else m.carrying,
       contains := if w.InObj? then m.contains[w.obj := head] else m.contains,
       inRoom := if w.InRoom? then m.inRoom[o := NULL] else m.inRoom,
       carriedBy := if w.OnChar? then m.carriedBy[o := NULL] else m.carriedBy,
       inObj := if w.InObj? then m.inObj[o := NULL] else m.inObj)
  }

  lemma {:induction false} UnlinkKeepsGood(v: View, next: map<Ref, Ref>, o: Ref, next': map<Ref, Ref>)
    requires Good(v, next) && o in v.owner && v.owner[o] != Nowhere
    requires GoodList(Without(v.list[v.owner[o]], o), next')
    requires forall x :: x in next && x !in v.list[v.owner[o]] ==> x in next' && next'[x] == next[x]
    ensures Good(Unlink(v, o), next'[o := NULL])
  {
    var w, v', next2 := v.owner[o], Unlink(v, o), next'[o := NULL];
    forall u | u in v'.list
      ensures GoodList(v'.list[u], next2)
    {
      UnlinkKeepsList(v, next, o, next', u);
    }
    hide GoodList, Without;
  }

  lemma {:induction false} ListsAreDisjoint(v: View, next: map<Ref, Ref>, o: Ref, u: Owner)
    requires Good(v, next) && o in v.owner && v.owner[o] in v.list && u in v.list && u != v.owner[o]
    ensures GoodList(v.list[u], next)
    ensures forall x :: x in v.list[u] ==> x !in v.list[v.owner[o]] && x != o
  {
    var w := v.owner[o];
    forall x | x in v.list[u]
      ensures x !in v.list[w] && x != o
    {
      assert v.owner[x] == u;
    }
  }

  lemma {:induction false} UnlinkKeepsList(v: View, next: map<Ref, Ref>, o: Ref, next': map<Ref, Ref>, u: Owner)
    requires Good(v, next) && o in v.owner && v.owner[o] != Nowhere && u in v.list
    requires GoodList(Without(v.list[v.owner[o]], o), next')
    requires forall x :: x in next && x !in v.list[v.owner[o]] ==> x in next' && next'[x] == next[x]
    ensures GoodList(Unlink(v, o).list[u], next'[o := NULL])
  {
    var w := v.owner[o];
    if u == w {
      ListInNext(Without(v.list[w], o), next');
      GoodListElsewhere(Without(v.list[w], o), next', next'[o := NULL]);
    } else {
      ListInNext(v.list[u], next);
      ListsAreDisjoint(v, next, o, u);
      hide Without, Good;
      GoodListElsewhere(v.list[u], next, next'[o := NULL]);
    }
  }

  lemma {:induction false} ListInNext(s: seq<Ref>, next: map<Ref, Ref>)
    requires GoodList(s, next)
    ensures forall o :: o in s ==> o in next
  {
  }

  /** Unlinking keeps the lists and the holder fields in agreement. */
  lemma {:induction false} UnlinkKeepsValid(m: Memory, v: View, o: Ref, head: Ref, next': map<Ref, Ref>)
    requires Valid(m, v) && o in v.owner && v.owner[o] != Nowhere
    requires var s := v.list[v.owner[o]];
             && GoodList(Without(s, o), next') && head == At(Without(s, o), 0)
             && next'.Keys == m.nextContent.Keys
             && forall x :: x in m.nextContent && x !in s ==> next'[x] == m.nextContent[x]
    ensures Valid(UnlinkedMemory(m, o, v.owner[o], head, next'), Unlink(v, o))
  {
    assert v.owner[o] in v.list;
    hide Good, Named, AllListed, GoodList, Headed, HoldersListed;
    UnlinkKeepsGood(v, m.nextContent, o, next');
    UnlinkKeepsRest(m, v, o, head, next');
  }

  lemma {:induction false} UnlinkKeepsRest(m: Memory, v: View, o: Ref, head: Ref, next': map<Ref, Ref>)
    requires Named(m, v) && Headed(m, v) && AllListed(m, v) && HoldersListed(m, v)
    requires o in v.owner && v.owner[o] in v.list
    requires head == At(Without(v.list[v.owner[o]], o), 0) && next'.Keys == m.nextContent.Keys
    ensures var m', v' := UnlinkedMemory(m, o, v.owner[o], head, next'), Unlink(v, o);
            Named(m', v') && Headed(m', v') && AllListed(m', v') && HoldersListed(m', v')
  {
    hide Without;
    assert PointsTo(m, v.owner[o], At(v.list[v.owner[o]], 0));
    UnlinkKeepsHeaded(m, v, o, head, next');
    UnlinkKeepsNamed(m, v, o, head, next');
    UnlinkKeepsHolders(m, v, o, head, next');
    hide Headed, Named, PointsTo, GoodList, HoldersListed;
  }

  lemma {:induction false} UnlinkKeepsHolders(m: Memory, v: View, o: Ref, head: Ref, next': map<Ref, Ref>)
    requires HoldersListed(m, v) && o in v.owner && v.owner[o] in v.list
    ensures HoldersListed(UnlinkedMemory(m, o, v.owner[o], head, next'), Unlink(v, o))
  {
    hide Without;
    var m' := UnlinkedMemory(m, o, v.owner[o], head, next');
    assert Unlink(v, o).list.Keys == v.list.Keys;
    assert m'.objects.Keys == m.objects.Keys && m'.carrying.Keys == m.carrying.Keys;
  }

  lemma {:induction false} UnlinkKeepsNamed(m: Memory, v: View, o: Ref, head: Ref, next': map<Ref, Ref>)
    requires Named(m, v) && o in v.owner && v.owner[o] in v.list && next'.Keys == m.nextContent.Keys
    requires PointsTo(m, v.owner[o], At(v.list[v.owner[o]], 0))
    ensures Named(UnlinkedMemory(m, o, v.owner[o], head, next'), Unlink(v, o))
  {
    var w := v.owner[o];
    assert w != Nowhere && (w.InObj? ==> w.obj in m.contains);
    hide Without, PointsTo, NamesOwner, Allocated, UnlinkedMemory;
    UnlinkKeepsAllocated(m, v.owner.Keys, o, w, head, next');
    UnlinkNamesAll(m, v.owner, v.owner[o := Nowhere], o, head, next');
  }

  lemma {:induction false} UnlinkNamesAll(m: Memory, owner: map<Ref, Owner>, owner': map<Ref, Owner>, o: Ref, head: Ref,
      next': map<Ref, Ref>)
    requires o in owner && owner[o] != Nowhere && forall x :: x in owner ==> NamesOwner(m, x, owner[x])
    requires owner' == owner[o := Nowhere]
    ensures owner'.Keys == owner.Keys
    ensures forall x :: x in owner' ==> NamesOwner(UnlinkedMemory(m, o, owner[o], head, next'), x, owner'[x])
  {
    hide NamesOwner, UnlinkedMemory;
    forall x | x in owner'
      ensures NamesOwner(UnlinkedMemory(m, o, owner[o], head, next'), x, owner'[x])
    {
      UnlinkNames(m, x, owner[x], o, owner[o], head, next');
    }
  }

  lemma {:induction false} UnlinkNames(m: Memory, x: Ref, u: Owner, o: Ref, w: Owner, head: Ref, next': map<Ref, Ref>)
    requires NamesOwner(m, x, u) && NamesOwner(m, o, w) && w != Nowhere
    ensures NamesOwner(UnlinkedMemory(m, o, w, head, next'), x, if x == o then Nowhere else u)
  {
  }

  lemma {:induction false} UnlinkKeepsAllocated(m: Memory, objs: set<Ref>, o: Ref, w: Owner, head: Ref,
      next': map<Ref, Ref>)
    requires Allocated(m, objs) && o in objs && next'.Keys == m.nextContent.Keys
    requires w.InObj? ==> w.obj in m.contains
    ensures Allocated(UnlinkedMemory(m, o, w, head, next'), objs)
  {
  }

  lemma {:induction false} UnlinkKeepsHeaded(m: Memory, v: View, o: Ref, head: Ref, next': map<Ref, Ref>)
    requires Headed(m, v) && o in v.owner && v.owner[o] in v.list
    requires head == At(Without(v.list[v.owner[o]], o), 0)
    ensures Headed(UnlinkedMemory(m, o, v.owner[o], head, next'), Unlink(v, o))
  {
    hide Without;
    var m', v' := UnlinkedMemory(m, o, v.owner[o], head, next'), Unlink(v, o);
    forall u | u in v'.list
      ensures PointsTo(m', u, At(v'.list[u], 0))
    {
      assert PointsTo(m, u, At(v.list[u], 0));
    }
  }

  lemma {:induction false} LinkedToRoom(m: Memory, o: Ref, r: Ref)
    requires r in m.objects
    ensures LinkedMemory(m, o, InRoom(r)) ==
            m.(nextContent := m.nextContent[o := m.objects[r]], objects := m.objects[r := o],
               inRoom := m.inRoom[o := r], carriedBy := m.carriedBy[o := NULL], inObj := m.inObj[o := NULL])
  {
  }

  lemma {:induction false} LinkedToChar(m: Memory, o: Ref, c: Ref)
    requires c in m.carrying
    ensures LinkedMemory(m, o, OnChar(c)) ==
            m.(nextContent := m.nextContent[o := m.carrying[c]], carrying := m.carrying[c := o],
               inRoom := m.inRoom[o := NULL], carriedBy := m.carriedBy[o := c], inObj := m.inObj[o := NULL])
  {
  }

  lemma {:induction false} LinkedToObj(m: Memory, o: Ref, d: Ref)
    requires d in m.contains
    ensures LinkedMemory(m, o, InObj(d)) ==
            m.(nextContent := m.nextContent[o := m.contains[d]], contains := m.contains[d := o],
               inRoom := m.inRoom[o := NULL], carriedBy := m.carriedBy[o := NULL], inObj := m.inObj[o := d])
  {
  }

  lemma {:induction false} UnlinkedFromRoom(m: Memory, o: Ref, u: Ref, head: Ref, next': map<Ref, Ref>)
    ensures UnlinkedMemory(m, o, InRoom(u), head, next') ==
            m.(nextContent := next'[o := NULL], objects := m.objects[u := head], inRoom := m.inRoom[o := NULL])
  {
  }

  lemma {:induction false} UnlinkedFromChar(m: Memory, o: Ref, u: Ref, head: Ref, next': map<Ref, Ref>)
    ensures UnlinkedMemory(m, o, OnChar(u), head, next') ==
            m.(nextContent := next'[o := NULL], carrying := m.carrying[u := head], carriedBy := m.carriedBy[o := NULL])
  {
  }

  lemma {:induction false} UnlinkedFromObj(m: Memory, o: Ref, u: Ref, head: Ref, next': map<Ref, Ref>)
    ensures UnlinkedMemory(m, o, InObj(u), head, next') ==
            m.(nextContent := next'[o := NULL], contains := m.contains[u := head], inObj := m.inObj[o := NULL])
  {
  }

  function Nulls(holders: set<Ref>): (heads: map<Ref, Ref>)
    ensures heads.Keys == holders && forall h :: h in heads ==> heads[h] == NULL
  {
    map h | h in holders :: NULL
  }

  ghost function EmptyLists(rooms: set<Ref>, chars: set<Ref>): (lists: map<Owner, seq<Ref>>)
    ensures forall w :: w in lists <==> (w.InRoom? && w.room in rooms) || (w.OnChar? && w.who in chars)
    ensures forall w :: w in lists ==> lists[w] == []
  {
    (map r | r in rooms :: InRoom(r) := []) + (map c | c in chars :: OnChar(c) := [])
  }

  lemma {:induction false} EmptyIsValid(rooms: set<Ref>, chars: set<Ref>)
    requires NULL !in rooms && NULL !in chars
    ensures Valid(Memory(map[], map[], map[], map[], map[], map[], Nulls(rooms), Nulls(chars), NULL),
                  View(map[], EmptyLists(rooms, chars), []))
  {
    var m := Memory(map[], map[], map[], map[], map[], map[], Nulls(rooms), Nulls(chars), NULL);
    var v := View(map[], EmptyLists(rooms, chars), []);
    hide Nulls, EmptyLists;
    assert Headed(m, v) && HoldersListed(m, v);
    assert Good(v, m.nextContent);
    assert Named(m, v) && AllListed(m, v);
  }

  class World {
    var m: Memory
    ghost var v: View

    ghost predicate Ok()
      reads this
    {
      Valid(m, v)
    }

    /** Empty rooms, characters that carry nothing, no objects. */
    constructor (rooms: set<Ref>, chars: set<Ref>)
      requires NULL !in rooms && NULL !in chars
      ensures Ok() && v.owner == map[] && v.all == []
      ensures forall w :: w in v.list <==> (w.InRoom? && w.room in rooms) || (w.OnChar? && w.who in chars)
    {
      EmptyIsValid(rooms, chars);
      hide Valid, Nulls, EmptyLists;
      m := Memory(map[], map[], map[], map[], map[], map[], Nulls(rooms), Nulls(chars), NULL);
      v := View(map[], EmptyLists(rooms, chars), []);
    }

    /** load_object: a new detached object at the front of first_object. */
    method LoadObject(o: Ref)
      requires Ok() && o != NULL && o !in v.owner
      modifies this
      ensures Ok()
      ensures v == Loaded(old(v), o)
    {
      LoadKeepsValid(m, v, o);
      hide Valid;
      m := m.(next := m.next[o := m.firstObject], firstObject := o,
              nextContent := m.nextContent[o := NULL], contains := m.contains[o := NULL],
              inRoom := m.inRoom[o := NULL], carriedBy := m.carriedBy[o := NULL], inObj := m.inObj[o := NULL]);
      v := Loaded(v, o);
    }

    /** The end of extract_obj: first_object without the object, whose fields are freed. */
    method Destroy(o: Ref, head: Ref, next': map<Ref, Ref>)
      requires Valid(DroppedMemory(m, o, head, next'), Destroyed(v, {o}))
      modifies this
      ensures Ok() && v == Destroyed(old(v), {o})
    {
      hide Valid, Destroyed;
      m := m.(next := next', firstObject := head);
      m := Memory(m.next - {o}, m.nextContent - {o}, m.contains - {o}, m.inRoom - {o}, m.carriedBy - {o}, m.inObj - {o},
                  m.objects, m.carrying, m.firstObject);
      v := Destroyed(v, {o});
    }

    /** obj_to_room */
    method ObjToRoom(obj: Ref, room: Ref)
      requires Ok() && obj in v.owner && InRoom(room) in v.list
      modifies this
      ensures v == Link(old(v), obj, InRoom(room)) && (old(v).owner[obj] == Nowhere ==> Ok())
      ensures old(v).owner[obj] != Nowhere ==> Broken(m)
    {
      hide Valid, Link, LinkedMemory, Broken;
      LinkKeepsValidIff(m, v, obj, InRoom(room));
      LinkedToRoom(m, obj, room);
      hide *;
      m := m.(nextContent := m.nextContent[obj := m.objects[room]], objects := m.objects[room := obj],
              inRoom := m.inRoom[obj := room], carriedBy := m.carriedBy[obj := NULL], inObj := m.inObj[obj := NULL]);
      v := Link(v, obj, InRoom(room));
    }

    /** obj_to_char */
    method ObjToChar(obj: Ref, ch: Ref)
      requires Ok() && obj in v.owner && OnChar(ch) in v.list
      modifies this
      ensures v == Link(old(v), obj, OnChar(ch)) && (old(v).owner[obj] == Nowhere ==> Ok())
      ensures old(v).owner[obj] != Nowhere ==> Broken(m)
    {
      hide Valid, Link, LinkedMemory, Broken;
      LinkKeepsValidIff(m, v, obj, OnChar(ch));
      LinkedToChar(m, obj, ch);
      hide *;
      m := m.(nextContent := m.nextContent[obj := m.carrying[ch]], carrying := m.carrying[ch := obj],
              inRoom := m.inRoom[obj := NULL], carriedBy := m.carriedBy[obj := ch], inObj := m.inObj[obj := NULL]);
      v := Link(v, obj, OnChar(ch));
    }

    /** obj_to_obj */
    method ObjToObj(obj: Ref, container: Ref)
      requires Ok() && obj in v.owner && InObj(container) in v.list
      modifies this
      ensures v == Link(old(v), obj, InObj(container)) && (old(v).owner[obj] == Nowhere ==> Ok())
      ensures old(v).owner[obj] != Nowhere ==> Broken(m)
    {
      hide Valid, Link, LinkedMemory, Broken;
      LinkKeepsValidIff(m, v, obj, InObj(container));
      LinkedToObj(m, obj, container);
      hide *;
      m := m.(nextContent := m.nextContent[obj := m.contains[container]], contains := m.contains[container := obj],
              inRoom := m.inRoom[obj := NULL], carriedBy := m.carriedBy[obj := NULL],
              inObj := m.inObj[obj := container]);
      v := Link(v, obj, InObj(container));
    }

    /** obj_from_room; without a room it changes nothing. */
    method ObjFromRoom(obj: Ref)
      requires Ok() && obj in v.owner
      modifies this
      ensures Ok() && v == if old(v).owner[obj].InRoom? then Unlink(old(v), obj) else old(v)
    {
      hide Valid, NamesOwner, GoodList, Unlink;
      HolderOf(m, v, obj);
      HolderHead(m, v, obj);
      var room := m.inRoom[obj];
      if room == NULL {
        return;
      }
      hide *;
      var head, next' := UnlinkMacro(m.objects[room], obj, m.nextContent, v.list[v.owner[obj]]);
      UnlinkKeepsValid(m, v, obj, head, next');
      UnlinkedFromRoom(m, obj, room, head, next');
      m := m.(objects := m.objects[room := head], nextContent := next'[obj := NULL], inRoom := m.inRoom[obj := NULL]);
      v := Unlink(v, obj);
    }

    /** obj_from_char; without a carrier it changes nothing. */
    method ObjFromChar(obj: Ref)
      requires Ok() && obj in v.owner
      modifies this
      ensures Ok() && v == if old(v).owner[obj].OnChar? then Unlink(old(v), obj) else old(v)
    {
      hide Valid, NamesOwner, GoodList, Unlink;
      HolderOf(m, v, obj);
      HolderHead(m, v, obj);
      var ch := m.carriedBy[obj];
      if ch == NULL {
        return;
      }
      hide *;
      var head, next' := UnlinkMacro(m.carrying[ch], obj, m.nextContent, v.list[v.owner[obj]]);
      UnlinkKeepsValid(m, v, obj, head, next');
      UnlinkedFromChar(m, obj, ch, head, next');
      m := m.(carrying := m.carrying[ch := head], carriedBy := m.carriedBy[obj := NULL],
          nextContent := next'[obj := NULL]);
      v := Unlink(v, obj);
    }

    /** obj_from_obj; outside a container it changes nothing. */
    method ObjFromObj(obj: Ref)
      requires Ok() && obj in v.owner
      modifies this
      ensures Ok() && v == if old(v).owner[obj].InObj? then Unlink(old(v), obj) else old(v)
    {
      hide Valid, NamesOwner, GoodList, Unlink;
      HolderOf(m, v, obj);
      HolderHead(m, v, obj);
      var from := m.inObj[obj];
      if from == NULL {
        return;
      }
      hide *;
      var head, next' := UnlinkMacro(m.contains[from], obj, m.nextContent, v.list[v.owner[obj]]);
      UnlinkKeepsValid(m, v, obj, head, next');
      UnlinkedFromObj(m, obj, from, head, next');
      m := m.(contains := m.contains[from := head], nextContent := next'[obj := NULL], inObj := m.inObj[obj := NULL]);
      v := Unlink(v, obj);
    }
  }

  lemma {:induction false} LoadKeepsGood(v: View, next: map<Ref, Ref>, o: Ref)
    requires Good(v, next) && o != NULL && o !in v.owner && InObj(o) !in v.list
    ensures Good(Loaded(v, o), next[o := NULL])
  {
    forall w | w in v.list
      ensures GoodList(v.list[w], next[o := NULL])
    {
      GoodListElsewhere(v.list[w], next, next[o := NULL]);
    }
  }

  ghost function LoadedMemory(m: Memory, o: Ref): Memory {
    m.(next := m.next[o := m.firstObject], firstObject := o,
       nextContent := m.nextContent[o := NULL], contains := m.contains[o := NULL],
       inRoom := m.inRoom[o := NULL], carriedBy := m.carriedBy[o := NULL], inObj := m.inObj[o := NULL])
  }

  ghost function Loaded(v: View, o: Ref): View {
    View(v.owner[o := Nowhere], v.list[InObj(o) := []], [o] + v.all)
  }

  lemma {:induction false} LoadKeepsValid(m: Memory, v: View, o: Ref)
    requires Valid(m, v) && o != NULL && o !in v.owner
    ensures Valid(LoadedMemory(m, o), Loaded(v, o))
  {
    hide GoodList, Good, Named, Headed, AllListed, HoldersListed, Loaded, LoadedMemory;
    LoadKeepsListed(m, v, o);
    LoadKeepsOwned(m, v, o);
    LoadKeepsNamed(m, v, o);
    LoadKeepsHeaded(m, v, o);
  }

  lemma {:induction false} LoadKeepsListed(m: Memory, v: View, o: Ref)
    requires AllListed(m, v) && HoldersListed(m, v) && o != NULL && o !in v.owner
    ensures AllListed(LoadedMemory(m, o), Loaded(v, o)) && HoldersListed(LoadedMemory(m, o), Loaded(v, o))
  {
    assert o !in v.all;
    LinkedFront(v.all, o, m.next);
    hide GoodList;
  }

  lemma {:induction false} LoadKeepsOwned(m: Memory, v: View, o: Ref)
    requires Good(v, m.nextContent) && Headed(m, v) && o != NULL && o !in v.owner
    ensures Good(Loaded(v, o), LoadedMemory(m, o).nextContent)
  {
    LoadKeepsGood(v, m.nextContent, o);
    hide Good;
  }

  lemma {:induction false} LoadKeepsNamed(m: Memory, v: View, o: Ref)
    requires Named(m, v)
    ensures Named(LoadedMemory(m, o), Loaded(v, o))
  {
    forall x | x in Loaded(v, o).owner
      ensures NamesOwner(LoadedMemory(m, o), x, Loaded(v, o).owner[x])
    {
      if x in v.owner {
        assert NamesOwner(m, x, v.owner[x]);
      }
    }
  }

  lemma {:induction false} LoadKeepsHeaded(m: Memory, v: View, o: Ref)
    requires Headed(m, v) && o != NULL && o !in v.owner
    ensures Headed(LoadedMemory(m, o), Loaded(v, o))
  {
    forall w | w in Loaded(v, o).list
      ensures PointsTo(LoadedMemory(m, o), w, At(Loaded(v, o).list[w], 0))
    {
      if w != InObj(o) {
        assert PointsTo(m, w, At(v.list[w], 0));
      }
    }
  }

  /** What an object's fields say about its holder and the holder's list. */
  lemma {:induction false} HolderOf(m: Memory, v: View, o: Ref)
    requires Valid(m, v) && o in v.owner
    ensures o in m.inRoom && o in m.carriedBy && o in m.inObj && o in m.nextContent && o in m.contains && o != NULL
    ensures m.inRoom[o] != NULL <==> v.owner[o].InRoom?
    ensures m.carriedBy[o] != NULL <==> v.owner[o].OnChar?
    ensures m.inObj[o] != NULL <==> v.owner[o].InObj?
    ensures v.owner[o] != Nowhere ==>
              var w := v.owner[o];
              && w in v.list && GoodList(v.list[w], m.nextContent) && o in v.list[w]
              && PointsTo(m, w, At(v.list[w], 0)) && NamesOwner(m, o, w)
  {
    hide GoodList;
  }

  /** The holder that a non-null field names, and the front of its list. */
  lemma {:induction false} HolderHead(m: Memory, v: View, o: Ref)
    requires Valid(m, v) && o in v.owner
    ensures o in m.inRoom && o in m.carriedBy && o in m.inObj
    ensures m.inRoom[o] != NULL ==>
              var r := m.inRoom[o];
              v.owner[o] == InRoom(r) && r in m.objects && m.objects[r] == At(v.list[InRoom(r)], 0)
    ensures m.carriedBy[o] != NULL ==>
              var c := m.carriedBy[o];
              v.owner[o] == OnChar(c) && c in m.carrying && m.carrying[c] == At(v.list[OnChar(c)], 0)
    ensures m.inObj[o] != NULL ==>
              var d := m.inObj[o];
              v.owner[o] == InObj(d) && d in m.contains && m.contains[d] == At(v.list[InObj(d)], 0)
  {
    HolderOf(m, v, o);
    assert NamesOwner(m, o, v.owner[o]);
    hide Valid;
  }

  /** What a reader of the memory can rely on: a held object is on the list of the one holder that its
      fields name, in one place there, and on no other list. */
  lemma {:induction false} OneHolder(m: Memory, v: View, o: Ref, w: Owner)
    requires Valid(m, v) && o in v.owner && w in v.list
    ensures o in m.inRoom && o in m.carriedBy && o in m.inObj
    ensures o in v.list[w] <==>
              || (w.InRoom? && m.inRoom[o] == w.room)
              || (w.OnChar? && m.carriedBy[o] == w.who)
              || (w.InObj? && m.inObj[o] == w.obj)
    ensures m.inRoom[o] == NULL || (m.carriedBy[o] == NULL && m.inObj[o] == NULL)
    ensures m.carriedBy[o] == NULL || m.inObj[o] == NULL
    ensures forall i, j :: 0 <= i < |v.list[w]| && 0 <= j < |v.list[w]| && v.list[w][i] == o && v.list[w][j] == o ==>
        i == j
  {
    assert PointsTo(m, w, At(v.list[w], 0));
    assert NamesOwner(m, o, v.owner[o]);
    assert GoodList(v.list[w], m.nextContent);
    hide Chained;
    if v.owner[o] != Nowhere {
      HolderOf(m, v, o);
    }
  }

  // ---------------------------------------------------------------- whole runs

  datatype Move =
    | Load(obj: Ref)
    | ToRoom(obj: Ref, room: Ref)
    | ToChar(obj: Ref, who: Ref)
    | ToObj(obj: Ref, container: Ref)
    | FromRoom(obj: Ref)
    | FromChar(obj: Ref)
    | FromObj(obj: Ref)

  predicate IsTo(mv: Move) {
    mv.ToRoom? || mv.ToChar? || mv.ToObj?
  }

  function Target(mv: Move): Owner {
    match mv
    case ToRoom(_, r) => InRoom(r)
    case ToChar(_, c) => OnChar(c)
    case ToObj(_, c) => InObj(c)
    case _ => Nowhere
  }

  /** New objects are new, and what is put somewhere was nowhere. */
  ghost predicate Legal(mv: Move, v: View) {
    if mv.Load? then mv.obj != NULL && mv.obj !in v.owner
    else mv.obj in v.owner && (IsTo(mv) ==> v.owner[mv.obj] == Nowhere && Target(mv) in v.list)
  }

  ghost function AfterMove(mv: Move, v: View): View
    requires Legal(mv, v)
    requires forall o :: o in v.owner && v.owner[o] != Nowhere ==> v.owner[o] in v.list
  {
    match mv
    case Load(o) => Loaded(v, o)
    case FromRoom(o) => if v.owner[o].InRoom? then Unlink(v, o) else v
    case FromChar(o) => if v.owner[o].OnChar? then Unlink(v, o) else v
    case FromObj(o) => if v.owner[o].InObj? then Unlink(v, o) else v
    case _ => Link(v, mv.obj, Target(mv))
  }

  lemma {:induction false} OwnersAreListed(m: Memory, v: View)
    requires Valid(m, v)
    ensures forall o :: o in v.owner && v.owner[o] != Nowhere ==> v.owner[o] in v.list
  {
  }

  method Put(w: World, mv: Move)
    requires w.Ok() && IsTo(mv) && Legal(mv, w.v)
    modifies w
    ensures w.Ok() && w.v == Link(old(w.v), mv.obj, Target(mv))
  {
    hide Valid, Link;
    match mv
    case ToRoom(o, r) => w.ObjToRoom(o, r);
    case ToChar(o, c) => w.ObjToChar(o, c);
    case ToObj(o, c) => w.ObjToObj(o, c);
  }

  /** One move of a run. */
  method Perform(w: World, mv: Move)
    requires w.Ok() && Legal(mv, w.v)
    modifies w
    ensures w.Ok()
    ensures forall o :: o in old(w.v).owner && old(w.v).owner[o] != Nowhere ==> old(w.v).owner[o] in old(w.v).list
    ensures w.v == AfterMove(mv, old(w.v))
  {
    OwnersAreListed(w.m, w.v);
    hide Valid, Loaded, Link, Unlink;
    match mv
    case Load(o) => w.LoadObject(o);
    case FromRoom(o) => w.ObjFromRoom(o);
    case FromChar(o) => w.ObjFromChar(o);
    case FromObj(o) => w.ObjFromObj(o);
    case _ => Put(w, mv);
  }

  /** A run of legal moves, and the views it goes through. */
  ghost predicate LegalRun(moves: seq<Move>, views: seq<View>)
    requires |views| == |moves| + 1
  {
    forall i :: 0 <= i < |moves| ==>
      && Legal(moves[i], views[i])
      && (forall o :: o in views[i].owner && views[i].owner[o] != Nowhere ==> views[i].owner[o] in views[i].list)
      && views[i + 1] == AfterMove(moves[i], views[i])
  }

  /** Over every run of loads and moves that puts only detached objects somewhere, the lists and the
      holder fields agree all the way. */
  method RunMoves(w: World, moves: seq<Move>, ghost views: seq<View>)
    requires w.Ok() && |views| == |moves| + 1 && views[0] == w.v && LegalRun(moves, views)
    modifies w
    ensures w.Ok() && w.v == views[|moves|]
  {
    hide Valid, AfterMove, Legal;
    var i := 0;
    while i < |moves|
      invariant 0 <= i <= |moves| && w.Ok() && w.v == views[i]
    {
      Perform(w, moves[i]);
      i := i + 1;
    }
  }

  // ---------------------------------------------------------------- extraction

  /** Whether at most n steps from an object to its container lead from d to o. */
  ghost predicate Climbs(owner: map<Ref, Owner>, d: Ref, o: Ref, n: nat)
    decreases n
  {
    d in owner && (d == o || (n > 0 && owner[d].InObj? && Climbs(owner, owner[d].obj, o, n - 1)))
  }

  /** Whether d is the object o or transitively inside it; containment may have cycles. */
  ghost predicate Within(owner: map<Ref, Owner>, d: Ref, o: Ref) {
    exists n: nat :: Climbs(owner, d, o, n)
  }

  /** Whether d is one of the objects or inside one. */
  ghost predicate WithinAny(owner: map<Ref, Owner>, d: Ref, os: seq<Ref>) {
    exists i :: 0 <= i < |os| && Within(owner, d, os[i])
  }

  ghost function Remaining(v: View, gone: set<Ref>): map<Ref, Owner> {
    v.owner - gone
  }

  /** The holders that the objects were. */
  ghost function Slots(objs: set<Ref>): set<Owner> {
    set o | o in objs :: InObj(o)
  }

  function Keep(s: seq<Ref>, gone: set<Ref>): (r: seq<Ref>)
    ensures forall o :: o in r <==> o in s && o !in gone
  {
    if s == [] then [] else if s[0] in gone then Keep(s[1..], gone) else [s[0]] + Keep(s[1..], gone)
  }

  /** The view without the objects gone and the lists of what was inside them. */
  ghost function Destroyed(v: View, gone: set<Ref>): View {
    View(Remaining(v, gone), v.list - Slots(gone), Keep(v.all, gone))
  }

  ghost function Inside(owner: map<Ref, Owner>, o: Ref): set<Ref> {
    set d | d in owner && Within(owner, d, o)
  }

  ghost function InsideAny(owner: map<Ref, Owner>, os: seq<Ref>): set<Ref> {
    set d | d in owner && WithinAny(owner, d, os)
  }

  ghost function Detached(v: View, o: Ref): View
    requires o in v.owner && (v.owner[o] != Nowhere ==> v.owner[o] in v.list)
  {
    if v.owner[o] == Nowhere then v else Unlink(v, o)
  }

  lemma {:induction false} KeepTwice(s: seq<Ref>, a: set<Ref>, b: set<Ref>)
    ensures Keep(Keep(s, a), b) == Keep(s, a + b)
  {
    if s != [] {
      KeepTwice(s[1..], a, b);
      if s[0] !in a {
        assert ([s[0]] + Keep(s[1..], a))[1..] == Keep(s[1..], a);
      }
    }
  }

  lemma {:induction false} KeepAllButOne(s: seq<Ref>, x: Ref)
    ensures Keep(s, {x}) == Without(s, x)
  {
    if s != [] {
      KeepAllButOne(s[1..], x);
    }
  }

  lemma {:induction false} KeepAll(s: seq<Ref>, gone: set<Ref>)
    requires forall x :: x in s ==> x !in gone
    ensures Keep(s, gone) == s
  {
    if s != [] {
      KeepAll(s[1..], gone);
    }
  }

  lemma {:induction false} WithinItself(owner: map<Ref, Owner>, o: Ref)
    requires o in owner
    ensures Within(owner, o, o)
  {
    assert Climbs(owner, o, o, 0);
  }

  /** What is inside something is there with its container. */
  lemma {:induction false} WithinStep(owner: map<Ref, Owner>, d: Ref, o: Ref)
    requires d in owner && d != o
    ensures Within(owner, d, o) <==> owner[d].InObj? && Within(owner, owner[d].obj, o)
  {
    if Within(owner, d, o) {
      var n: nat :| Climbs(owner, d, o, n);
      assert Climbs(owner, owner[d].obj, o, n - 1);
    }
    if owner[d].InObj? && Within(owner, owner[d].obj, o) {
      var n: nat :| Climbs(owner, owner[d].obj, o, n);
      assert Climbs(owner, d, o, n + 1);
    }
  }

  /** Detaching an object changes nothing about what is inside it. */
  lemma {:induction false} ClimbsDetached(owner: map<Ref, Owner>, o: Ref, d: Ref, n: nat)
    requires o in owner
    ensures Climbs(owner[o := Nowhere], d, o, n) == Climbs(owner, d, o, n)
    decreases n
  {
    if d in owner && d != o && owner[d].InObj? && n > 0 {
      ClimbsDetached(owner, o, owner[d].obj, n - 1);
    }
  }

  /** cs is what o contains. */
  ghost predicate ContentsAre(owner: map<Ref, Owner>, o: Ref, cs: seq<Ref>) {
    && NoDuplicates(cs)
    && (forall c :: c in cs ==> c in owner && owner[c] == InObj(o))
    && (forall c :: c in owner && owner[c] == InObj(o) ==> c in cs)
  }

  lemma {:induction false} GoodContents(v: View, next: map<Ref, Ref>, o: Ref)
    requires Good(v, next) && o in v.owner
    ensures InObj(o) in v.list && ContentsAre(v.owner, o, v.list[InObj(o)])
  {
    hide Chained;
    assert GoodList(v.list[InObj(o)], next);
  }

  lemma {:induction false} InsideIsInContents(owner: map<Ref, Owner>, o: Ref, cs: seq<Ref>, d: Ref, n: nat)
    requires ContentsAre(owner, o, cs) && d != o && Climbs(owner, d, o, n)
    ensures WithinAny(owner, d, cs)
    decreases n
  {
    var p := owner[d].obj;
    if p == o {
      var i :| 0 <= i < |cs| && cs[i] == d;
      WithinItself(owner, d);
      assert Within(owner, d, cs[i]);
    } else {
      InsideIsInContents(owner, o, cs, p, n - 1);
      WithinParent(owner, d, cs);
    }
  }

  /** A detached object is inside nothing but itself. */
  lemma {:induction false} DetachedIsOutside(owner: map<Ref, Owner>, o: Ref, c: Ref)
    requires o in owner && owner[o] == Nowhere && o != c
    ensures !Within(owner, o, c)
  {
    WithinStep(owner, o, c);
  }

  lemma {:induction false} InContentsIsInside(owner: map<Ref, Owner>, o: Ref, cs: seq<Ref>, d: Ref)
    requires ContentsAre(owner, o, cs) && o in owner && owner[o] == Nowhere && WithinAny(owner, d, cs)
    ensures Within(owner, d, o) && d != o
  {
    var i :| 0 <= i < |cs| && Within(owner, d, cs[i]);
    assert cs[i] in cs;
    DetachedIsOutside(owner, o, cs[i]);
    var n: nat :| Climbs(owner, d, cs[i], n);
    ClimbsOn(owner, d, cs[i], o, n);
  }

  lemma {:induction false} ClimbsOn(owner: map<Ref, Owner>, d: Ref, c: Ref, o: Ref, n: nat)
    requires Climbs(owner, d, c, n) && c in owner && owner[c] == InObj(o) && o in owner
    ensures Climbs(owner, d, o, n + 1)
    decreases n
  {
    if d != c {
      ClimbsOn(owner, owner[d].obj, c, o, n - 1);
    } else {
      assert Climbs(owner, o, o, n);
    }
  }

  /** What is inside a detached object is the object and what is inside one of its contents. */
  lemma {:induction false} InsideContents(owner: map<Ref, Owner>, o: Ref, cs: seq<Ref>)
    requires ContentsAre(owner, o, cs) && o in owner && owner[o] == Nowhere
    ensures Inside(owner, o) == {o} + InsideAny(owner, cs)
  {
    hide ContentsAre, WithinAny, Within;
    WithinItself(owner, o);
    forall d | d in owner
      ensures Within(owner, d, o) <==> d == o || WithinAny(owner, d, cs)
    {
      if d != o && Within(owner, d, o) {
        WithinContents(owner, o, cs, d);
      }
      if WithinAny(owner, d, cs) {
        InContentsIsInside(owner, o, cs, d);
      }
    }
  }

  lemma {:induction false} WithinContents(owner: map<Ref, Owner>, o: Ref, cs: seq<Ref>, d: Ref)
    requires ContentsAre(owner, o, cs) && d != o && Within(owner, d, o)
    ensures WithinAny(owner, d, cs)
  {
    var n: nat :| Climbs(owner, d, o, n);
    InsideIsInContents(owner, o, cs, d, n);
  }

  lemma {:induction false} WithinParent(owner: map<Ref, Owner>, d: Ref, os: seq<Ref>)
    requires d in owner && owner[d].InObj? && WithinAny(owner, owner[d].obj, os)
    ensures WithinAny(owner, d, os)
  {
    var i :| 0 <= i < |os| && Within(owner, owner[d].obj, os[i]);
    if d == os[i] {
      WithinItself(owner, d);
    } else {
      WithinStep(owner, d, os[i]);
    }
    assert Within(owner, d, os[i]);
  }

  /** Destroying some objects with everything inside them changes nothing about what the others are inside. */
  lemma {:induction false} ClimbsRemaining(v: View, os: seq<Ref>, d: Ref, c: Ref, n: nat)
    requires d in v.owner && !WithinAny(v.owner, d, os)
    ensures Climbs(Remaining(v, InsideAny(v.owner, os)), d, c, n) == Climbs(v.owner, d, c, n)
    decreases n
  {
    hide WithinAny;
    if d != c && v.owner[d].InObj? && n > 0 {
      var p := v.owner[d].obj;
      if p in v.owner {
        if !WithinAny(v.owner, p, os) {
          ClimbsRemaining(v, os, p, c, n - 1);
        } else {
          WithinParent(v.owner, d, os);
        }
      }
    }
  }

  lemma {:induction false} WithinRemaining(v: View, os: seq<Ref>, d: Ref, c: Ref)
    requires d in v.owner && !WithinAny(v.owner, d, os)
    ensures Within(Remaining(v, InsideAny(v.owner, os)), d, c) == Within(v.owner, d, c)
  {
    forall n: nat
      ensures Climbs(Remaining(v, InsideAny(v.owner, os)), d, c, n) == Climbs(v.owner, d, c, n)
    {
      ClimbsRemaining(v, os, d, c, n);
    }
  }

  /** The view in the middle of extract_obj's loop: the first i contents are gone. */
  ghost function Midway(v: View, o: Ref, i: nat): View
    requires InObj(o) in v.list && i <= |v.list[InObj(o)]|
  {
    var cs := v.list[InObj(o)];
    var d := Destroyed(v, InsideAny(v.owner, cs[..i]));
    d.(list := d.list[InObj(o) := cs[i..]])
  }

  lemma {:induction false} NothingGoneYet(v: View, o: Ref)
    requires InObj(o) in v.list
    ensures Midway(v, o, 0) == v
  {
    var cs := v.list[InObj(o)];
    assert InsideAny(v.owner, cs[..0]) == {};
    KeepAll(v.all, {});
    assert cs[0..] == cs;
    assert Destroyed(v, {}).list == v.list;
    assert Destroyed(v, {}).owner == v.owner;
  }

  /** Neither the detached container nor a later content is inside an earlier content. */
  lemma {:induction false} SiblingsApart(owner: map<Ref, Owner>, o: Ref, cs: seq<Ref>, i: nat)
    requires ContentsAre(owner, o, cs) && o in owner && owner[o] == Nowhere && i < |cs|
    ensures cs[i] in owner && owner[cs[i]] == InObj(o)
    ensures !WithinAny(owner, o, cs[..i + 1]) && !WithinAny(owner, cs[i], cs[..i])
  {
    assert forall k :: 0 <= k < |cs| ==> cs[k] in cs;
    hide Within;
    forall k | 0 <= k < i + 1
      ensures !Within(owner, o, cs[k])
    {
      DetachedIsOutside(owner, o, cs[k]);
    }
    forall k | 0 <= k < i
      ensures !Within(owner, cs[i], cs[k])
    {
      WithinStep(owner, cs[i], cs[k]);
      DetachedIsOutside(owner, o, cs[k]);
    }
  }

  // ---------------------------------------------------------------- one turn of the loop

  lemma {:induction false} AnyOfMore(owner: map<Ref, Owner>, cs: seq<Ref>, i: nat, d: Ref)
    requires i < |cs|
    ensures WithinAny(owner, d, cs[..i + 1]) <==> WithinAny(owner, d, cs[..i]) || Within(owner, d, cs[i])
  {
    hide Within;
    if WithinAny(owner, d, cs[..i + 1]) {
      var k :| 0 <= k < i + 1 && Within(owner, d, cs[..i + 1][k]);
      if k < i {
        assert Within(owner, d, cs[..i][k]);
      }
    }
    if WithinAny(owner, d, cs[..i]) {
      var k :| 0 <= k < i && Within(owner, d, cs[..i][k]);
      assert Within(owner, d, cs[..i + 1][k]);
    }
    assert cs[..i + 1][i] == cs[i];
  }

  /** What goes with the next content, seen midway, completes what goes with one content more. */
  lemma {:induction false} GoneWithNext(v: View, o: Ref, cs: seq<Ref>, i: nat)
    requires ContentsAre(v.owner, o, cs) && o in v.owner && v.owner[o] == Nowhere && i < |cs|
    ensures var gone := InsideAny(v.owner, cs[..i]);
            var rest := Remaining(v, gone);
            cs[i] in rest && InsideAny(v.owner, cs[..i + 1]) == gone + Inside(rest, cs[i])
  {
    hide ContentsAre, WithinAny, Within;
    SiblingsApart(v.owner, o, cs, i);
    var gone := InsideAny(v.owner, cs[..i]);
    var rest := Remaining(v, gone);
    forall d | d in v.owner
      ensures d in InsideAny(v.owner, cs[..i + 1]) <==> d in gone || (d in rest && Within(rest, d, cs[i]))
    {
      AnyOfMore(v.owner, cs, i, d);
      if d in rest {
        WithinRemaining(v, cs[..i], d, cs[i]);
      }
    }
  }

  /** What extract_obj leaves: the object and everything inside it are gone from the holders, from the
      lists and from first_object; the list that held the object has lost just that one; every other
      list is as it was. */
  ghost function Extracted(v: View, o: Ref): View
    requires o in v.owner && (v.owner[o] != Nowhere ==> v.owner[o] in v.list)
  {
    Destroyed(Detached(v, o), Inside(v.owner, o))
  }

  /** Extraction is exact on every containment, with cycles or without: the object and what is transitively inside it
      leave the objects and first_object, the others keep their holders, the list that held the object loses just
      that one unless its holder goes too, and every list of another holder that is not destroyed is as it was. */
  lemma {:induction false} ExtractionIsExact(m: Memory, v: View, o: Ref)
    requires Valid(m, v) && o in v.owner
    ensures v.owner[o] != Nowhere ==> v.owner[o] in v.list
    ensures var e, w := Extracted(v, o), v.owner[o];
            && (forall d :: d in e.owner <==> d in v.owner && !Within(v.owner, d, o))
            && (forall d :: d in e.owner ==> e.owner[d] == v.owner[d])
            && (forall d :: d in e.all <==> d in v.all && !Within(v.owner, d, o))
            && (forall u :: u in e.list <==>
                  u in v.list && !(u.InObj? && u.obj in v.owner && Within(v.owner, u.obj, o)))
            && (forall u :: u in e.list ==> e.list[u] == if u == w then Without(v.list[w], o) else v.list[u])
  {
    OwnersAreListed(m, v);
    var gone := Inside(v.owner, o);
    assert forall d :: d in gone <==> d in v.owner && Within(v.owner, d, o);
    WithinItself(v.owner, o);
    assert forall d :: d in v.all ==> d in v.owner;
    hide Valid, Without, Keep, Within, Inside, Destroyed, Detached;
    DestroyedIsExact(v, o, gone);
  }

  lemma {:induction false} DestroyedIsExact(v: View, o: Ref, gone: set<Ref>)
    requires o in v.owner && (v.owner[o] != Nowhere ==> v.owner[o] in v.list) && o in gone
    ensures var e, w := Destroyed(Detached(v, o), gone), v.owner[o];
            && (forall d :: d in e.owner <==> d in v.owner && d !in gone)
            && (forall d :: d in e.owner ==> e.owner[d] == v.owner[d])
            && (forall d :: d in e.all <==> d in v.all && d !in gone)
            && (forall u :: u in e.list <==> u in v.list && !(u.InObj? && u.obj in gone))
            && (forall u :: u in e.list ==>
                  e.list[u] == if w != Nowhere && u == w then Without(v.list[w], o) else v.list[u])
  {
    hide Without, Keep;
    assert forall u :: u in Slots(gone) <==> u.InObj? && u.obj in gone;
  }

  lemma {:induction false} MidwayIsOwned(v: View, o: Ref, cs: seq<Ref>, i: nat)
    requires InObj(o) in v.list && cs == v.list[InObj(o)]
    requires ContentsAre(v.owner, o, cs) && o in v.owner && v.owner[o] == Nowhere && i < |cs|
    ensures var mid := Midway(v, o, i);
            && cs[i] in mid.owner && mid.owner[cs[i]] == InObj(o)
            && InObj(o) in mid.list && mid.list[InObj(o)] == cs[i..]
  {
    hide ContentsAre, WithinAny;
    SiblingsApart(v.owner, o, cs, i);
  }

  /** Extracting the next content takes the loop one turn on. */
  lemma {:induction false} NextTurn(v: View, o: Ref, cs: seq<Ref>, i: nat)
    requires InObj(o) in v.list && cs == v.list[InObj(o)]
    requires ContentsAre(v.owner, o, cs) && o in v.owner && v.owner[o] == Nowhere && i < |cs|
    requires var mid := Midway(v, o, i);
             cs[i] in mid.owner && mid.owner[cs[i]] == InObj(o)
    requires forall w :: w in v.list && w != InObj(o) ==> cs[i] !in v.list[w]
    ensures Extracted(Midway(v, o, i), cs[i]) == Midway(v, o, i + 1)
  {
    hide WithinAny, Within;
    var mid, next := Midway(v, o, i), Midway(v, o, i + 1);
    var gone := InsideAny(v.owner, cs[..i]);
    var more := Inside(mid.owner, cs[i]);
    assert InsideAny(v.owner, cs[..i + 1]) == gone + more by {
      GoneWithNext(v, o, cs, i);
    }
    OwnedNext(v, o, cs, i);
    KeepTwice(v.all, gone, more);
    TurnedOwners(v, mid, gone, more, cs[i]);
    TurnedLists(v, mid, gone, more, o, cs, i);
  }

  lemma {:induction false} OwnedNext(v: View, o: Ref, cs: seq<Ref>, i: nat)
    requires InObj(o) in v.list && cs == v.list[InObj(o)]
    requires ContentsAre(v.owner, o, cs) && o in v.owner && v.owner[o] == Nowhere && i < |cs|
    requires cs[i] in Midway(v, o, i).owner
    ensures cs[i] in Inside(Midway(v, o, i).owner, cs[i])
    ensures o !in InsideAny(v.owner, cs[..i + 1]) && cs[i] !in cs[i + 1..]
  {
    SiblingsApart(v.owner, o, cs, i);
    WithinItself(Midway(v, o, i).owner, cs[i]);
  }

  lemma {:induction false} TurnedOwners(v: View, mid: View, gone: set<Ref>, more: set<Ref>, c: Ref)
    requires mid.owner == Remaining(v, gone) && c in mid.owner && c in more
    ensures Remaining(mid.(owner := mid.owner[c := Nowhere]), more) == Remaining(v, gone + more)
  {
  }

  lemma {:induction false} TurnedLists(v: View, mid: View, gone: set<Ref>, more: set<Ref>, o: Ref, cs: seq<Ref>, i: nat)
    requires InObj(o) in v.list && cs == v.list[InObj(o)] && i < |cs| && cs[i] !in cs[i + 1..]
    requires mid.list == Destroyed(v, gone).list[InObj(o) := cs[i..]] && o !in gone + more
    requires cs[i] in mid.owner && mid.owner[cs[i]] == InObj(o)
    requires forall w :: w in v.list && w != InObj(o) ==> cs[i] !in v.list[w]
    ensures Destroyed(Unlink(mid, cs[i]), more).list == Destroyed(v, gone + more).list[InObj(o) := cs[i + 1..]]
  {
    assert Without(cs[i..], cs[i]) == cs[i + 1..] by {
      assert cs[i..][0] == cs[i] && cs[i..][1..] == cs[i + 1..];
    }
    var l1, l2 := Destroyed(Unlink(mid, cs[i]), more).list, Destroyed(v, gone + more).list[InObj(o) := cs[i + 1..]];
    hide Without;
    forall w | w in l1.Keys + l2.Keys
      ensures w in l1 && w in l2 && l1[w] == l2[w]
    {
    }
  }

  /** After the last content the object goes too. */
  lemma {:induction false} LastTurn(v: View, o: Ref, cs: seq<Ref>)
    requires InObj(o) in v.list && cs == v.list[InObj(o)]
    requires ContentsAre(v.owner, o, cs) && o in v.owner && v.owner[o] == Nowhere
    ensures Destroyed(Midway(v, o, |cs|), {o}) == Destroyed(v, Inside(v.owner, o))
  {
    assert cs[..|cs|] == cs;
    InsideContents(v.owner, o, cs);
    var gone := InsideAny(v.owner, cs);
    KeepTwice(v.all, gone, {o});
    assert gone + {o} == {o} + gone;
    hide Inside, InsideAny;
    var d1, d2 := Destroyed(Midway(v, o, |cs|), {o}), Destroyed(v, {o} + gone);
    assert d1.owner == d2.owner;
    assert d1.list == d2.list;
  }

  // ---------------------------------------------------------------- extract_obj

  lemma {:induction false} DropKeepsGood(v: View, next: map<Ref, Ref>, o: Ref)
    requires Good(v, next) && o in v.owner && v.owner[o] == Nowhere && v.list[InObj(o)] == []
    ensures Good(Destroyed(v, {o}), next - {o})
  {
    var v' := Destroyed(v, {o});
    forall w | w in v'.list
      ensures GoodList(v'.list[w], next - {o})
    {
      assert o !in v.list[w];
      ListInNext(v.list[w], next);
      GoodListElsewhere(v.list[w], next, next - {o});
    }
    hide GoodList;
    forall x | x in v'.owner && v'.owner[x] != Nowhere
      ensures v'.owner[x] in v'.list && x in v'.list[v'.owner[x]]
    {
      assert x in v.list[v.owner[x]];
    }
  }

  ghost function DroppedMemory(m: Memory, o: Ref, head: Ref, next': map<Ref, Ref>): Memory {
    Memory(next' - {o}, m.nextContent - {o}, m.contains - {o}, m.inRoom - {o}, m.carriedBy - {o}, m.inObj - {o},
           m.objects, m.carrying, head)
  }

  lemma {:induction false} DropKeepsNamed(m: Memory, v: View, o: Ref, head: Ref, next': map<Ref, Ref>)
    requires Named(m, v) && o in v.owner && next'.Keys == m.next.Keys
    ensures Named(DroppedMemory(m, o, head, next'), Destroyed(v, {o}))
  {
    var m', v' := DroppedMemory(m, o, head, next'), Destroyed(v, {o});
    assert v'.owner.Keys == v.owner.Keys - {o};
    forall x | x in v'.owner
      ensures NamesOwner(m', x, v'.owner[x])
    {
      assert NamesOwner(m, x, v.owner[x]);
    }
  }

  lemma {:induction false} DropKeepsHeaded(m: Memory, v: View, o: Ref, head: Ref, next': map<Ref, Ref>)
    requires Headed(m, v) && o in v.owner
    ensures Headed(DroppedMemory(m, o, head, next'), Destroyed(v, {o}))
  {
    var m', v' := DroppedMemory(m, o, head, next'), Destroyed(v, {o});
    forall w | w in v'.list
      ensures PointsTo(m', w, At(v'.list[w], 0))
    {
      assert PointsTo(m, w, At(v.list[w], 0));
    }
  }

  lemma {:induction false} DropKeepsListed(m: Memory, v: View, o: Ref, head: Ref, next': map<Ref, Ref>)
    requires AllListed(m, v) && o in v.owner
    requires GoodList(Without(v.all, o), next') && head == At(Without(v.all, o), 0)
    ensures AllListed(DroppedMemory(m, o, head, next'), Destroyed(v, {o}))
  {
    KeepAllButOne(v.all, o);
    ListInNext(Without(v.all, o), next');
    GoodListElsewhere(Without(v.all, o), next', next' - {o});
  }

  lemma {:induction false} DropKeepsValid(m: Memory, v: View, o: Ref, head: Ref, next': map<Ref, Ref>)
    requires Valid(m, v) && o in v.owner && v.owner[o] == Nowhere && InObj(o) in v.list && v.list[InObj(o)] == []
    requires GoodList(Without(v.all, o), next') && head == At(Without(v.all, o), 0) && next'.Keys == m.next.Keys
    ensures Valid(DroppedMemory(m, o, head, next'), Destroyed(v, {o}))
  {
    hide Named, Headed, Good, AllListed;
    DropKeepsNamed(m, v, o, head, next');
    DropKeepsHeaded(m, v, o, head, next');
    DropKeepsGood(v, m.nextContent, o);
    DropKeepsListed(m, v, o, head, next');
  }

  lemma {:induction false} AllIsGood(m: Memory, v: View, o: Ref)
    requires Valid(m, v) && o in v.owner
    ensures GoodList(v.all, m.next) && m.firstObject == At(v.all, 0) && o in m.next && o != NULL && InObj(o) in v.list
  {
    hide GoodList;
  }

  /** UNLINK(first_object, ...) and destroy_object. */
  method DropObject(w: World, obj: Ref)
    requires w.Ok() && obj in w.v.owner && w.v.owner[obj] == Nowhere
    requires InObj(obj) in w.v.list && w.v.list[InObj(obj)] == []
    modifies w
    ensures w.Ok() && w.v == Destroyed(old(w.v), {obj})
  {
    AllIsGood(w.m, w.v, obj);
    hide Valid, GoodList, Without, Destroyed;
    var head, next' := UnlinkMacro(w.m.firstObject, obj, w.m.next, w.v.all);
    DropKeepsValid(w.m, w.v, obj, head, next');
    w.Destroy(obj, head, next');
  }

  /** The first half of extract_obj: takes the object from wherever it is. */
  method Detach(w: World, obj: Ref)
    requires w.Ok() && obj in w.v.owner
    modifies w
    ensures old(w.v).owner[obj] != Nowhere ==> old(w.v).owner[obj] in old(w.v).list
    ensures w.Ok() && w.v == Detached(old(w.v), obj)
  {
    HolderOf(w.m, w.v, obj);
    hide Valid;
    if w.m.inRoom[obj] != NULL {
      w.ObjFromRoom(obj);
    }
    HolderOf(w.m, w.v, obj);
    if w.m.carriedBy[obj] != NULL {
      w.ObjFromChar(obj);
    }
    HolderOf(w.m, w.v, obj);
    if w.m.inObj[obj] != NULL {
      w.ObjFromObj(obj);
    }
  }

  lemma {:induction false} DetachedInside(v: View, o: Ref)
    requires o in v.owner && (v.owner[o] != Nowhere ==> v.owner[o] in v.list)
    ensures Inside(Detached(v, o).owner, o) == Inside(v.owner, o)
  {
    var owner' := Detached(v, o).owner;
    assert owner' == v.owner[o := Nowhere];
    forall d, n: nat
      ensures Climbs(owner', d, o, n) == Climbs(v.owner, d, o, n)
    {
      ClimbsDetached(v.owner, o, d, n);
    }
  }

  /** The objects that something holds. */
  ghost function Attached(v: View): set<Ref> {
    set x | x in v.owner && v.owner[x] != Nowhere
  }

  lemma {:induction false} DetachedAttached(v: View, o: Ref)
    requires o in v.owner && (v.owner[o] != Nowhere ==> v.owner[o] in v.list)
    ensures var v' := Detached(v, o);
            o in v'.owner && v'.owner[o] == Nowhere && Attached(v') == Attached(v) - {o}
    ensures Extracted(v, o) == Destroyed(Detached(v, o), Inside(v.owner, o))
  {
  }

  /** The contents of an object, as its fields and the next-pointers show them. */
  lemma {:induction false} ContentsOf(m: Memory, v: View, o: Ref)
    requires Valid(m, v) && o in v.owner
    ensures InObj(o) in v.list && o in m.contains && m.contains[o] == At(v.list[InObj(o)], 0)
    ensures ContentsAre(v.owner, o, v.list[InObj(o)]) && NULL !in v.list[InObj(o)]
    ensures forall w, c :: w in v.list && w != InObj(o) && c in v.list[InObj(o)] ==> c !in v.list[w]
  {
    GoodContents(v, m.nextContent, o);
    assert PointsTo(m, InObj(o), At(v.list[InObj(o)], 0));
    assert GoodList(v.list[InObj(o)], m.nextContent);
    hide GoodList;
  }

  lemma {:induction false} NextContent(m: Memory, v: View, c: Ref, w: Owner)
    requires Valid(m, v) && w in v.list && v.list[w] != [] && v.list[w][0] == c
    ensures c in m.nextContent && m.nextContent[c] == At(v.list[w], 1)
  {
    assert GoodList(v.list[w], m.nextContent);
  }

  /** extract_obj: ends in every state and leaves what Extracted says. Each nested call detaches one object more,
      so even containers inside one another come to an end. */
  method ExtractObj(w: World, obj: Ref)
    requires w.Ok() && obj in w.v.owner
    modifies w
    ensures old(w.v).owner[obj] != Nowhere ==> old(w.v).owner[obj] in old(w.v).list
    ensures w.Ok() && w.v == Extracted(old(w.v), obj)
    decreases |Attached(w.v) - {obj}|, 2
  {
    Detach(w, obj);
    DetachedInside(old(w.v), obj);
    DetachedAttached(old(w.v), obj);
    hide *;
    ExtractContents(w, obj);
    DropObject(w, obj);
  }

  /** The loop of extract_obj over the contents, whose list shrinks under it. */
  method ExtractContents(w: World, obj: Ref)
    requires w.Ok() && obj in w.v.owner && w.v.owner[obj] == Nowhere
    modifies w
    ensures w.Ok() && obj in w.v.owner && w.v.owner[obj] == Nowhere
    ensures InObj(obj) in w.v.list && w.v.list[InObj(obj)] == []
    ensures Destroyed(w.v, {obj}) == Destroyed(old(w.v), Inside(old(w.v).owner, obj))
    decreases |Attached(w.v)|, 1
  {
    ghost var v := w.v;
    ContentsOf(w.m, v, obj);
    ghost var cs := v.list[InObj(obj)];
    var content := w.m.contains[obj];
    ghost var i := 0;
    NothingGoneYet(v, obj);
    MidwayEnd(v, obj, cs);
    LastTurn(v, obj, cs);
    hide Valid, ContentsAre, Midway, Destroyed, Inside, Attached;
    while content != NULL
      invariant 0 <= i <= |cs| && content == At(cs, i)
      invariant w.Ok() && w.v == Midway(v, obj, i)
      decreases |cs| - i
    {
      content := ExtractNext(w, v, obj, content, cs, i);
      i := i + 1;
    }
  }

  /** One turn of the loop: saves the next pointer, then extracts the content. */
  method ExtractNext(w: World, ghost v: View, ghost obj: Ref, content: Ref, ghost cs: seq<Ref>, ghost i: nat)
    returns (objNext: Ref)
    requires obj in v.owner && v.owner[obj] == Nowhere && InObj(obj) in v.list && cs == v.list[InObj(obj)]
    requires ContentsAre(v.owner, obj, cs) && i < |cs| && content == cs[i]
    requires forall u, c :: u in v.list && u != InObj(obj) && c in cs ==> c !in v.list[u]
    requires w.Ok() && w.v == Midway(v, obj, i)
    modifies w
    ensures w.Ok() && w.v == Midway(v, obj, i + 1) && objNext == At(cs, i + 1)
    decreases |Attached(v)|, 0
  {
    assert Valid(w.m, w.v);
    hide *;
    assert content in cs;
    MidwayIsOwned(v, obj, cs, i);
    NextTurn(v, obj, cs, i);
    FewerAttached(v, obj, i, content);
    NextPlace(cs, i);
    NextContent(w.m, w.v, content, InObj(obj));
    objNext := w.m.nextContent[content];
    ExtractObj(w, content);
  }

  lemma {:induction false} NextPlace(cs: seq<Ref>, i: nat)
    requires i < |cs|
    ensures cs[i..] != [] && cs[i..][0] == cs[i] && At(cs[i..], 1) == At(cs, i + 1)
  {
  }

  lemma {:induction false} FewerAttached(v: View, o: Ref, i: nat, c: Ref)
    requires InObj(o) in v.list && i <= |v.list[InObj(o)]|
    requires c in Midway(v, o, i).owner && Midway(v, o, i).owner[c] != Nowhere
    ensures |Attached(Midway(v, o, i)) - {c}| < |Attached(v)|
  {
    var rest := Attached(Midway(v, o, i)) - {c};
    assert rest <= Attached(v) - {c} && c in Attached(v);
    SubsetSize(rest, Attached(v) - {c});
  }

  lemma {:induction false} MidwayEnd(v: View, o: Ref, cs: seq<Ref>)
    requires InObj(o) in v.list && cs == v.list[InObj(o)]
    requires ContentsAre(v.owner, o, cs) && o in v.owner && v.owner[o] == Nowhere
    ensures var mid := Midway(v, o, |cs|);
            o in mid.owner && mid.owner[o] == v.owner[o] && InObj(o) in mid.list && mid.list[InObj(o)] == []
  {
    if cs != [] {
      SiblingsApart(v.owner, o, cs, |cs| - 1);
    }
  }

  /** Two new containers, each put into the other by moves of detached objects. */
  method MakeCycle(w: World, a: Ref, b: Ref)
    requires w.Ok() && w.v.owner == map[] && a != NULL && b != NULL && a != b
    modifies w
    ensures w.Ok() && w.v.owner == map[a := InObj(b), b := InObj(a)]
  {
    LoadedTwice(w.v, a, b);
    hide *;
    w.LoadObject(a);
    w.LoadObject(b);
    w.ObjToObj(a, b);
    w.ObjToObj(b, a);
  }

  /** Extracting one of two containers that are inside each other ends and destroys both. */
  method ExtractFromCycle(w: World, a: Ref, b: Ref)
    requires w.Ok() && w.v.owner == map[] && a != NULL && b != NULL && a != b
    modifies w
    ensures w.Ok() && w.v.owner == map[] && w.v.all == []
  {
    hide Valid, Extracted, Within;
    MakeCycle(w, a, b);
    InsideCycle(w.v.owner, a, b);
    ExtractionIsExact(w.m, w.v, a);
    ExtractObj(w, a);
    assert w.v.owner.Keys == {};
    ListedAreOwned(w.m, w.v);
  }

  lemma {:induction false} LoadedTwice(v: View, a: Ref, b: Ref)
    requires v.owner == map[] && a != b
    ensures a !in v.owner && b !in Loaded(v, a).owner
    ensures var v2 := Loaded(Loaded(v, a), b);
            && v2.owner.Keys == {a, b} && v2.owner[a] == v2.owner[b] == Nowhere
            && InObj(a) in v2.list && InObj(b) in v2.list
            && var v3 := Link(v2, a, InObj(b));
            && v3.owner.Keys == {a, b} && v3.owner[b] == Nowhere && InObj(a) in v3.list
            && Link(v3, b, InObj(a)).owner == map[a := InObj(b), b := InObj(a)]
  {
  }

  lemma {:induction false} InsideCycle(owner: map<Ref, Owner>, a: Ref, b: Ref)
    requires a in owner && b in owner && owner[b] == InObj(a)
    ensures Within(owner, a, a) && Within(owner, b, a)
  {
    assert Climbs(owner, a, a, 0) && Climbs(owner, b, a, 1);
  }

  lemma {:induction false} ListedAreOwned(m: Memory, v: View)
    requires Valid(m, v)
    ensures forall x :: x in v.all <==> x in v.owner
    ensures v.owner.Keys == {} ==> v.all == []
  {
    assert v.all != [] ==> v.all[0] in v.all;
  }
}
