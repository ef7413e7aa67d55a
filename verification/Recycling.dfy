/**
 Links on their way between a pool and the chains of its users: an account of
 every link the system gave, and the pool on the heap kept against it.
 */
module Recycling {
  import opened Chains
  import opened Numbers

  /** Links are numbered as the system allocates them; `held` counts those in users' chains. */
  datatype Circulation = Circulation(free: seq<nat>, held: multiset<nat>, made: nat)

  /** NgxPool::chain, and NgxChain::free of the links given, which leaves the last on top. */
  datatype Op = Take | Give(links: seq<nat>)

  const START := Circulation([], multiset{}, 0)

  predicate Enabled(c: Circulation, op: Op) {
    op.Give? ==> multiset(op.links) <= c.held
  }

  /** The link a user gets next. */
  function Taken(c: Circulation): nat {
    if c.free == [] then c.made else c.free[0]
  }

  function Step(c: Circulation, op: Op): Circulation
    requires Enabled(c, op)
  {
    match op
    case Take =>
      if c.free == [] then Circulation([], c.held + multiset{c.made}, c.made + 1)
      else Circulation(c.free[1..], c.held + multiset{c.free[0]}, c.made)
    case Give(links) => Circulation(Reverse(links) + c.free, c.held - multiset(links), c.made)
  }

  /** Every link the system gave is in exactly one place: once on the free list or once in a user's chain. */
  ghost predicate Accounted(c: Circulation) {
    forall l: nat :: (multiset(c.free) + c.held)[l] == if l < c.made then 1 else 0
  }

  lemma ReverseMultiset<T>(s: seq<T>)
    ensures multiset(Reverse(s)) == multiset(s)
  {
    if s != [] {
      ReverseMultiset(s[1..]);
      assert s == [s[0]] + s[1..];
    }
  }

  /** The link handed out is in nobody's chain, and neither on the free list any more. */
  lemma TakenIsNotHeld(c: Circulation)
    requires Accounted(c)
    ensures Taken(c) !in c.held && Taken(c) !in Step(c, Take).free
  {
    var l := Taken(c);
    assert (multiset(c.free) + c.held)[l] == if l < c.made then 1 else 0;
    if c.free != [] {
      assert c.free == [c.free[0]] + c.free[1..];
    }
  }

  lemma StepAccounts(c: Circulation, op: Op)
    requires Accounted(c) && Enabled(c, op)
    ensures Accounted(Step(c, op))
  {
    var n := Step(c, op);
    match op {
      case Take =>
        if c.free != [] {
          assert c.free == [c.free[0]] + c.free[1..];
        }
      case Give(links) =>
        ReverseMultiset(links);
    }
    forall l: nat
      ensures (multiset(n.free) + n.held)[l] == if l < n.made then 1 else 0
    {
      assert (multiset(c.free) + c.held)[l] == if l < c.made then 1 else 0;
    }
  }

  predicate AllEnabled(c: Circulation, ops: seq<Op>)
    decreases |ops|
  {
    ops == [] || (Enabled(c, ops[0]) && AllEnabled(Step(c, ops[0]), ops[1..]))
  }

  function Run(c: Circulation, ops: seq<Op>): Circulation
    requires AllEnabled(c, ops)
    decreases |ops|
  {
    if ops == [] then c else Run(Step(c, ops[0]), ops[1..])
  }

  /** The most links in users' chains at once at any point of a run. */
  function Peak(c: Circulation, ops: seq<Op>): nat
    requires AllEnabled(c, ops)
    decreases |ops|
  {
    if ops == [] then |c.held| else Max(|c.held|, Peak(Step(c, ops[0]), ops[1..]))
  }

  lemma {:induction false} RunCounts(c: Circulation, ops: seq<Op>)
    requires Accounted(c) && AllEnabled(c, ops) && c.made == |c.free| + |c.held|
    ensures Accounted(Run(c, ops)) && Run(c, ops).made == Max(c.made, Peak(c, ops))
    decreases |ops|
  {
    if ops != [] {
      StepAccounts(c, ops[0]);
      RunCounts(Step(c, ops[0]), ops[1..]);
    }
  }

  /**
   However taking and freeing interleave, no link is lost or in two places, and
   the system gives no more links than were in use at once.
   */
  lemma RunAccounts(ops: seq<Op>)
    requires AllEnabled(START, ops)
    ensures Accounted(Run(START, ops)) && Taken(Run(START, ops)) !in Run(START, ops).held
    ensures Run(START, ops).made == Peak(START, ops)
  {
    RunCounts(START, ops);
    TakenIsNotHeld(Run(START, ops));
  }

  // ---------- the pool on the heap ----------

  /** These links have these numbers. */
  ghost predicate Numbered(all: seq<Link>, nums: seq<nat>, links: seq<Link>) {
    |nums| == |links| && forall i :: 0 <= i < |nums| ==> nums[i] < |all| && links[i] == all[nums[i]]
  }

  ghost predicate Distinct(all: seq<Link>) {
    forall i, j :: 0 <= i < j < |all| ==> all[i] != all[j]
  }

  /** The account agrees with the links on the free list. */
  ghost predicate Books(c: Circulation, all: seq<Link>, free: seq<Link>) {
    Accounted(c) && |all| == c.made && Distinct(all) && Numbered(all, c.free, free)
  }

  /** A link in a user's chain is not on the free list. */
  lemma HeldApart(c: Circulation, all: seq<Link>, free: seq<Link>, n: nat)
    requires Books(c, all, free) && n in c.held
    ensures n < |all| && all[n] !in free
  {
    assert (multiset(c.free) + c.held)[n] == if n < c.made then 1 else 0;
    assert n !in c.free;
    forall i | 0 <= i < |free|
      ensures free[i] != all[n]
    {
      assert c.free[i] in c.free;
    }
  }

  /** Links of a user's chain are not on the free list. */
  lemma ChainApart(c: Circulation, all: seq<Link>, free: seq<Link>, nums: seq<nat>, s: seq<Link>)
    requires Books(c, all, free) && Numbered(all, nums, s) && multiset(nums) <= c.held
    ensures forall l :: l in s ==> l !in free
  {
    forall i | 0 <= i < |s|
      ensures s[i] !in free
    {
      assert nums[i] in multiset(nums);
      HeldApart(c, all, free, nums[i]);
    }
  }

  /** The links in users' chains other than those of `nums`. */
  ghost function Others(c: Circulation, all: seq<Link>, nums: seq<nat>): set<Link> {
    set n: nat | n in c.held && n < |all| && n !in nums :: all[n]
  }

  lemma OthersApart(c: Circulation, all: seq<Link>, free: seq<Link>, nums: seq<nat>, s: seq<Link>)
    requires Books(c, all, free) && Numbered(all, nums, s)
    ensures forall l :: l in Others(c, all, nums) ==> l !in s && l !in free
  {
    forall l | l in Others(c, all, nums)
      ensures l !in s && l !in free
    {
      var n: nat :| n in c.held && n < |all| && n !in nums && all[n] == l;
      HeldApart(c, all, free, n);
      assert forall i :: 0 <= i < |s| ==> nums[i] != n;
    }
  }

  lemma NumberedReverse(all: seq<Link>, nums: seq<nat>, links: seq<Link>)
    requires Numbered(all, nums, links)
    ensures Numbered(all, Reverse(nums), Reverse(links))
  {
    if nums != [] {
      NumberedReverse(all, nums[1..], links[1..]);
    }
  }

  lemma NumberedConcat(all: seq<Link>, nums: seq<nat>, links: seq<Link>, nums': seq<nat>, links': seq<Link>)
    requires Numbered(all, nums, links) && Numbered(all, nums', links')
    ensures Numbered(all, nums + nums', links + links')
  {
  }

  lemma GiveBooks(c: Circulation, all: seq<Link>, were: seq<Link>, nums: seq<nat>, freed: seq<Link>)
    requires Books(c, all, were) && Numbered(all, nums, freed) && multiset(nums) <= c.held
    ensures Books(Step(c, Op.Give(nums)), all, Reverse(freed) + were)
  {
    StepAccounts(c, Op.Give(nums));
    NumberedReverse(all, nums, freed);
    NumberedConcat(all, Reverse(nums), Reverse(freed), c.free, were);
  }

  /** The first k links of a user's chain given up. */
  lemma GiveFirst(c: Circulation, all: seq<Link>, were: seq<Link>, nums: seq<nat>, s: seq<Link>, k: nat,
                  free: seq<Link>)
    requires Books(c, all, were) && Numbered(all, nums, s) && Enabled(c, Op.Give(nums)) && k <= |s|
    requires free == Reverse(s[..k]) + were
    ensures Enabled(c, Op.Give(nums[..k])) && Books(Step(c, Op.Give(nums[..k])), all, free)
  {
    assert nums == nums[..k] + nums[k..];
    GiveBooks(c, all, were, nums[..k], s[..k]);
  }

  /** A link taken from the free list. */
  lemma ReuseBooks(c: Circulation, all: seq<Link>, were: seq<Link>)
    requires Books(c, all, were) && were != []
    ensures Books(Step(c, Op.Take), all, were[1..]) && Taken(c) < |all| && were[0] == all[Taken(c)]
  {
    StepAccounts(c, Op.Take);
  }

  /** A link the system gave. */
  lemma NewBooks(c: Circulation, all: seq<Link>, l: Link)
    requires Books(c, all, []) && l !in all
    ensures Books(Step(c, Op.Take), all + [l], []) && Taken(c) == |all|
  {
    StepAccounts(c, Op.Take);
  }

  /** NgxChain::free, by how many links it gave up. */
  method FreeUpTo(head: Link?, ghost s: seq<Link>, pool: Pool, pos: Link?) returns (rest: Link?, ghost k: nat)
    requires pool.Valid() && IsChain(head, s) && forall l :: l in s ==> l !in pool.free
    modifies pool`chain, pool`free, s`next
    ensures rest == pos && k <= |s| && pos !in s[..k] && (k < |s| ==> s[k] == pos)
    ensures pool.Valid() && pool.free == Reverse(s[..k]) + old(pool.free)
    ensures IsChain(if k == |s| then null else pos, s[k..])
  {
    ghost var freed, kept;
    rest, freed, kept := Free(head, s, pool, pos);
    k := |freed|;
    assert freed == s[..k] && kept == s[k..];
  }

  /** A pool and the account of its links. */
  class Ledger {
    const pool: Pool
    ghost var all: seq<Link>   // every link the system gave, in order
    ghost var c: Circulation

    ghost predicate Valid()
      reads this, pool`chain, pool`free, pool.free
    {
      pool.Valid() && Books(c, all, pool.free)
    }

    constructor (answers: seq<bool>)
      ensures Valid() && fresh(pool) && c == START && all == [] && pool.grants == answers
    {
      pool := new Pool(answers);
      all, c := [], START;
    }

    /** NgxPool::chain is one Take; no link in a user's chain is touched. */
    method Take() returns (l: Link?)
      requires Valid()
      modifies this, pool`chain, pool`grants, pool`free, pool.free`next
      ensures Valid()
      ensures l == null <==> old(c).free == [] && !old(pool.Granted(0))
      ensures c == if l == null then old(c) else Step(old(c), Op.Take)
      ensures l != null ==> Taken(old(c)) < |all| && l == all[Taken(old(c))] && l.next == null
      ensures if old(pool.free) == [] then pool.free == [] && (l == null || fresh(l))
              else l == old(pool.free[0]) && pool.free == old(pool.free[1..])
      ensures all == if l != null && old(c).free == [] then old(all) + [l] else old(all)
      ensures forall o :: o in old(Others(c, all, [])) ==> o != l && o.next == old(o.next)
    {
      ghost var were := pool.free;
      OthersApart(c, all, were, [], []);
      l := pool.Chain();
      if l == null {
        return;
      }
      if were == [] {
        NewBooks(c, all, l);
        all := all + [l];
      } else {
        ReuseBooks(c, all, were);
      }
      c := Step(c, Op.Take);
    }

    /** The account once the first k links of a chain are on the free list. */
    ghost method Record(nums: seq<nat>, s: seq<Link>, k: nat, were: seq<Link>)
      requires pool.Valid() && Books(c, all, were) && Numbered(all, nums, s) && Enabled(c, Op.Give(nums))
      requires k <= |s| && pool.free == Reverse(s[..k]) + were
      modifies this`c
      ensures Valid()
      ensures Enabled(old(c), Op.Give(nums[..k])) && c == Step(old(c), Op.Give(nums[..k]))
    {
      GiveFirst(c, all, were, nums, s, k, pool.free);
      c := Step(c, Op.Give(nums[..k]));
    }

    /** The links before `pos` given up, by a chain that shares none with the free list. */
    method GiveUpTo(head: Link?, ghost s: seq<Link>, ghost nums: seq<nat>, pos: Link?)
      returns (rest: Link?, ghost k: nat)
      requires Valid() && IsChain(head, s) && Numbered(all, nums, s) && Enabled(c, Op.Give(nums))
      requires forall l :: l in s ==> l !in pool.free
      modifies this`c, pool`chain, pool`free, s`next
      ensures Valid() && rest == pos && k <= |s| && pool.free == Reverse(s[..k]) + old(pool.free)
      ensures k <= |s| && pos !in s[..k] && (k < |s| ==> s[k] == pos)
      ensures Enabled(old(c), Op.Give(nums[..k])) && c == Step(old(c), Op.Give(nums[..k]))
      ensures IsChain(if k == |s| then null else pos, s[k..])
    {
      ghost var were := pool.free;
      rest, k := FreeUpTo(head, s, pool, pos);
      Record(nums, s, k, were);
    }

    /**
     NgxChain::free is one Give of the links before `pos`; the rest stays a chain
     and no link of another chain is touched.
     */
    method Give(head: Link?, ghost s: seq<Link>, ghost nums: seq<nat>, pos: Link?)
      returns (rest: Link?, ghost k: nat)
      requires Valid() && IsChain(head, s) && Numbered(all, nums, s) && Enabled(c, Op.Give(nums))
      modifies this`c, pool`chain, pool`free, s`next
      ensures Valid() && rest == pos && k <= |s| && pool.free == Reverse(s[..k]) + old(pool.free)
      ensures k <= |s| && pos !in s[..k] && (k < |s| ==> s[k] == pos)
      ensures Enabled(old(c), Op.Give(nums[..k])) && c == Step(old(c), Op.Give(nums[..k]))
      ensures IsChain(if k == |s| then null else pos, s[k..])
      ensures forall o :: o in old(Others(c, all, nums)) ==> o.next == old(o.next)
    {
      ChainApart(c, all, pool.free, nums, s);
      OthersApart(c, all, pool.free, nums, s);
      rest, k := GiveUpTo(head, s, nums, pos);
    }
  }
}
