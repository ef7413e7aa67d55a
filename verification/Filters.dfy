/**
 Registration of filters (NgxFilter): the global top pointer and, per tag, the
 pointer that was on top before.
 */
module Filters {
  import opened Chains

  /** A filter function: nginx's own, or the one of a tag. */
  datatype Ref = Base | Filter(tag: nat)

  datatype Stack = Stack(top: Ref, next: map<nat, Ref>)

  const INITIAL := Stack(Base, map[])

  /** NgxFilter::set */
  function Register(s: Stack, tag: nat): Stack {
    Stack(Filter(tag), s.next[tag := s.top])
  }

  function RegisterAll(tags: seq<nat>): Stack {
    if tags == [] then INITIAL else Register(RegisterAll(tags[..|tags| - 1]), tags[|tags| - 1])
  }

  /** Following next from `from` visits the filters of `order` and ends at nginx's own. */
  ghost predicate Path(s: Stack, from: Ref, order: seq<nat>)
    decreases |order|
  {
    if order == [] then from == Base
    else from == Filter(order[0]) && order[0] in s.next && Path(s, s.next[order[0]], order[1..])
  }

  ghost predicate ReachesBase(s: Stack) {
    exists order :: Path(s, s.top, order)
  }

  ghost predicate Distinct<T>(s: seq<T>) {
    forall i, j :: 0 <= i < j < |s| ==> s[i] != s[j]
  }

  lemma {:induction false} PathSuffix(s: Stack, from: Ref, order: seq<nat>, k: nat)
    requires Path(s, from, order) && k < |order|
    ensures Path(s, Filter(order[k]), order[k..])
    decreases k
  {
    if k > 0 {
      PathSuffix(s, s.next[order[0]], order[1..], k - 1);
      assert order[1..][k - 1..] == order[k..];
    }
  }

  lemma {:induction false} PathUnique(s: Stack, from: Ref, o: seq<nat>, p: seq<nat>)
    requires Path(s, from, o) && Path(s, from, p)
    ensures o == p
    decreases |o|
  {
    if o != [] && p != [] {
      PathUnique(s, s.next[o[0]], o[1..], p[1..]);
      assert o == [o[0]] + o[1..] && p == [p[0]] + p[1..];
    }
  }

  /** A path that reaches the end visits no filter twice. */
  lemma PathDistinct(s: Stack, from: Ref, order: seq<nat>)
    requires Path(s, from, order)
    ensures Distinct(order)
  {
    forall i, j | 0 <= i < j < |order|
      ensures order[i] != order[j]
    {
      PathSuffix(s, from, order, i);
      PathSuffix(s, from, order, j);
      var a, b := order[i..], order[j..];
      assert |a| > |b|;
      if order[i] == order[j] {
        PathUnique(s, Filter(order[i]), a, b);
      }
    }
  }

  /** Registering a tag that a path does not visit leaves the path as it is. */
  lemma {:induction false} PathKept(s: Stack, tag: nat, from: Ref, order: seq<nat>)
    requires tag !in order
    ensures Path(Register(s, tag), from, order) <==> Path(s, from, order)
    decreases |order|
  {
    if order != [] && order[0] in s.next {
      assert order[0] != tag;
      PathKept(s, tag, s.next[order[0]], order[1..]);
    }
  }

  lemma ReverseMembers<T>(s: seq<T>)
    ensures forall x :: x in Reverse(s) <==> x in s
  {
  }

  lemma {:induction false} DistinctTagsReachBase(tags: seq<nat>)
    requires Distinct(tags)
    ensures Path(RegisterAll(tags), RegisterAll(tags).top, Reverse(tags))
    decreases |tags|
  {
    if tags != [] {
      var init, t := tags[..|tags| - 1], tags[|tags| - 1];
      DistinctTagsReachBase(init);
      assert tags == init + [t];
      ReverseSnoc(init, t);
      ReverseMembers(init);
      assert t !in init;
      PathKept(RegisterAll(init), t, RegisterAll(init).top, Reverse(init));
      assert Reverse(tags)[1..] == Reverse(init);
    }
  }

  lemma {:induction false} ReachingBaseMeansDistinct(tags: seq<nat>, order: seq<nat>)
    requires Path(RegisterAll(tags), RegisterAll(tags).top, order)
    ensures Distinct(tags) && order == Reverse(tags)
    decreases |tags|
  {
    if tags != [] {
      var init, t := tags[..|tags| - 1], tags[|tags| - 1];
      var s := RegisterAll(init);
      PathDistinct(RegisterAll(tags), Filter(t), order);
      assert order[0] == t;
      assert t !in order[1..];
      PathKept(s, t, s.top, order[1..]);
      ReachingBaseMeansDistinct(init, order[1..]);
      ReverseMembers(init);
      ReverseSnoc(init, t);
      assert tags == init + [t] && order == [t] + order[1..];
    }
  }

  /**
   From the top, `next` leads to nginx's own filter exactly when no tag was
   registered twice; it then visits every filter once, the latest first.
   */
  lemma RegistrationOrder(tags: seq<nat>)
    ensures ReachesBase(RegisterAll(tags)) <==> Distinct(tags)
    ensures Distinct(tags) ==> Path(RegisterAll(tags), RegisterAll(tags).top, Reverse(tags))
  {
    if Distinct(tags) {
      DistinctTagsReachBase(tags);
    } else if ReachesBase(RegisterAll(tags)) {
      var order :| Path(RegisterAll(tags), RegisterAll(tags).top, order);
      ReachingBaseMeansDistinct(tags, order);
    }
  }

  /** The two stacks of nginx and the static next pointers of every NgxFilter<Tag>. */
  class FilterTable {
    var topHeader: Ref
    var topBody: Ref
    var nextHeader: map<nat, Ref>
    var nextBody: map<nat, Ref>

    constructor ()
      ensures HeaderStack() == BodyStack() == INITIAL
    {
      topHeader, topBody, nextHeader, nextBody := Base, Base, map[], map[];
    }

    function HeaderStack(): Stack
      reads this
    {
      Stack(topHeader, nextHeader)
    }

    function BodyStack(): Stack
      reads this
    {
      Stack(topBody, nextBody)
    }

    /** NgxFilter<tag>::init; a null function pointer leaves that stack alone. */
    method Init(tag: nat, header: bool, body: bool)
      modifies this
      ensures HeaderStack() == if header then Register(old(HeaderStack()), tag) else old(HeaderStack())
      ensures BodyStack() == if body then Register(old(BodyStack()), tag) else old(BodyStack())
      ensures if header then topHeader == Filter(tag) && nextHeader == old(nextHeader)[tag := old(topHeader)]
              else topHeader == old(topHeader) && nextHeader == old(nextHeader)
      ensures if body then topBody == Filter(tag) && nextBody == old(nextBody)[tag := old(topBody)]
              else topBody == old(topBody) && nextBody == old(nextBody)
    {
      if header {
        nextHeader := nextHeader[tag := topHeader];
        topHeader := Filter(tag);
      }
      if body {
        nextBody := nextBody[tag := topBody];
        topBody := Filter(tag);
      }
    }
  }

  /** What a module passes to NgxFilter<tag>::init: which of the two functions it gives. */
  datatype Registration = Registration(tag: nat, header: bool, body: bool)

  function HeaderTags(regs: seq<Registration>): seq<nat> {
    if regs == [] then []
    else
      var last := regs[|regs| - 1];
      HeaderTags(regs[..|regs| - 1]) + if last.header then [last.tag] else []
  }

  function BodyTags(regs: seq<Registration>): seq<nat> {
    if regs == [] then []
    else
      var last := regs[|regs| - 1];
      BodyTags(regs[..|regs| - 1]) + if last.body then [last.tag] else []
  }

  /** Each stack gets the tags of the modules that give its function, in the order they come. */
  lemma TagsSnoc(regs: seq<Registration>, reg: Registration)
    ensures HeaderTags([]) == [] && BodyTags([]) == []
    ensures HeaderTags(regs + [reg]) == HeaderTags(regs) + if reg.header then [reg.tag] else []
    ensures BodyTags(regs + [reg]) == BodyTags(regs) + if reg.body then [reg.tag] else []
  {
    assert (regs + [reg])[..|regs|] == regs;
  }

  lemma RegisterSnoc(tags: seq<nat>, tag: nat)
    ensures RegisterAll(tags + [tag]) == Register(RegisterAll(tags), tag)
  {
    assert (tags + [tag])[..|tags|] == tags;
  }

  /** The stacks once one more module has been initialised. */
  lemma StacksSnoc(regs: seq<Registration>, i: nat)
    requires i < |regs|
    ensures
      var h, b := HeaderTags(regs[..i]), BodyTags(regs[..i]);
      && RegisterAll(HeaderTags(regs[..i + 1])) ==
           (if regs[i].header then Register(RegisterAll(h), regs[i].tag) else RegisterAll(h))
      && RegisterAll(BodyTags(regs[..i + 1])) ==
           (if regs[i].body then Register(RegisterAll(b), regs[i].tag) else RegisterAll(b))
  {
    var h, b := HeaderTags(regs[..i]), BodyTags(regs[..i]);
    assert regs[..i + 1][..i] == regs[..i];
    assert h + [] == h && b + [] == b;
    RegisterSnoc(h, regs[i].tag);
    RegisterSnoc(b, regs[i].tag);
  }

  /**
   nginx initialises its modules one after another. Each stack is that of the tags
   registered in it, whatever the other one got; it ends at nginx's own filter
   exactly when no tag is in it twice, and then the latest tag comes first.
   */
  method InitAll(table: FilterTable, regs: seq<Registration>)
    requires table.HeaderStack() == table.BodyStack() == INITIAL
    modifies table
    ensures table.HeaderStack() == RegisterAll(HeaderTags(regs))
    ensures table.BodyStack() == RegisterAll(BodyTags(regs))
    ensures ReachesBase(table.HeaderStack()) <==> Distinct(HeaderTags(regs))
    ensures ReachesBase(table.BodyStack()) <==> Distinct(BodyTags(regs))
    ensures Distinct(HeaderTags(regs)) ==> Path(table.HeaderStack(), table.topHeader, Reverse(HeaderTags(regs)))
    ensures Distinct(BodyTags(regs)) ==> Path(table.BodyStack(), table.topBody, Reverse(BodyTags(regs)))
  {
    var i := 0;
    while i < |regs|
      invariant 0 <= i <= |regs|
      invariant table.HeaderStack() == RegisterAll(HeaderTags(regs[..i]))
      invariant table.BodyStack() == RegisterAll(BodyTags(regs[..i]))
    {
      StacksSnoc(regs, i);
      table.Init(regs[i].tag, regs[i].header, regs[i].body);
      i := i + 1;
    }
    assert regs[..i] == regs;
    RegistrationOrder(HeaderTags(regs));
    RegistrationOrder(BodyTags(regs));
  }

  /** Modules that give both functions. */
  function Both(tags: seq<nat>): seq<Registration> {
    seq(|tags|, i requires 0 <= i < |tags| => Registration(tags[i], true, true))
  }

  lemma {:induction false} BothTags(tags: seq<nat>)
    ensures HeaderTags(Both(tags)) == BodyTags(Both(tags)) == tags
    decreases |tags|
  {
    if tags != [] {
      var k := |tags| - 1;
      assert Both(tags)[..k] == Both(tags[..k]);
      BothTags(tags[..k]);
      assert tags == tags[..k] + [tags[k]];
    }
  }
}
