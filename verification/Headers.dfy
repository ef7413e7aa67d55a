/** Request and response headers (NgxHeaders): a chunked list of key-value entries. */
module Headers {
  import opened Buffers
  import opened Chains
  import opened Entries
  import opened Lists

  /** Keys are compared without regard to case (section 3.2 of RFC 7230). */
  function Lower(b: Byte): Byte {
    if 65 <= b <= 90 then b + 32 else b
  }

  predicate IEquals(a: seq<Byte>, b: seq<Byte>) {
    |a| == |b| && forall i :: 0 <= i < |a| ==> Lower(a[i]) == Lower(b[i])
  }

  /** b is a with the case of some of its letters changed. */
  predicate CaseVariant(a: seq<Byte>, b: seq<Byte>) {
    && |a| == |b|
    && forall i :: 0 <= i < |a| ==>
         || a[i] == b[i]
         || (65 <= a[i] <= 90 && b[i] == a[i] + 32)
         || (65 <= b[i] <= 90 && a[i] == b[i] + 32)
  }

  /** Lower-case forms agree exactly when only the case of letters differs, and that is an equivalence. */
  lemma IEqualsIs(a: seq<Byte>, b: seq<Byte>, c: seq<Byte>)
    ensures IEquals(a, b) <==>
            && |a| == |b|
            && forall i :: 0 <= i < |a| ==>
                 || a[i] == b[i]
                 || (65 <= a[i] <= 90 && b[i] == a[i] + 32)
                 || (65 <= b[i] <= 90 && a[i] == b[i] + 32)
    ensures IEquals(a, b) <==> CaseVariant(a, b)
    ensures IEquals(a, a) && (IEquals(a, b) ==> IEquals(b, a)) && (IEquals(a, b) && IEquals(b, c) ==> IEquals(a, c))
  {
    if IEquals(a, b) {
      forall i | 0 <= i < |a|
        ensures a[i] == b[i] || (65 <= a[i] <= 90 && b[i] == a[i] + 32) || (65 <= b[i] <= 90 && a[i] == b[i] + 32)
      {
        assert Lower(a[i]) == Lower(b[i]);
      }
    }
  }

  /** The first entry with this key, whatever its hash; |s| when there is none. */
  function FirstMatch(s: seq<Kv>, key: seq<Byte>): (n: nat)
    ensures n <= |s|
    ensures n < |s| ==> IEquals(s[n].key, key)
    ensures forall i :: 0 <= i < n ==> !IEquals(s[i].key, key)
  {
    if s == [] || IEquals(s[0].key, key) then 0 else 1 + FirstMatch(s[1..], key)
  }

  lemma FirstMatchIs(s: seq<Kv>, key: seq<Byte>, n: nat)
    requires n <= |s| && (n < |s| ==> IEquals(s[n].key, key))
    requires forall i :: 0 <= i < n ==> !IEquals(s[i].key, key)
    ensures FirstMatch(s, key) == n
  {
  }

  /** A key with the case of any of its letters changed finds the same entry. */
  lemma CaseDoesNotMatter(s: seq<Kv>, key: seq<Byte>, other: seq<Byte>)
    requires CaseVariant(key, other)
    ensures FirstMatch(s, key) == FirstMatch(s, other)
  {
    var n := FirstMatch(s, key);
    IEqualsIs(key, other, []);
    forall i | 0 <= i < |s|
      ensures IEquals(s[i].key, key) <==> IEquals(s[i].key, other)
    {
      IEqualsIs(s[i].key, key, other);
      IEqualsIs(s[i].key, other, key);
      IEqualsIs(key, other, []);
      IEqualsIs(other, key, []);
    }
    FirstMatchIs(s, other, n);
  }

  /** Entry n is the first whose key is this one but for case; n is |s| when there is none. */
  ghost predicate IsFirst(s: seq<Kv>, key: seq<Byte>, n: nat) {
    && n <= |s| && (n < |s| ==> CaseVariant(s[n].key, key))
    && forall i :: 0 <= i < n ==> !CaseVariant(s[i].key, key)
  }

  lemma FirstMatchIsFirst(s: seq<Kv>, key: seq<Byte>)
    ensures IsFirst(s, key, FirstMatch(s, key))
    ensures forall n: nat :: IsFirst(s, key, n) ==> n == FirstMatch(s, key)
  {
    forall i | 0 <= i < |s|
      ensures IEquals(s[i].key, key) <==> CaseVariant(s[i].key, key)
    {
      IEqualsIs(s[i].key, key, []);
    }
  }

  /** What NgxHeaders::remove leaves: the first match marked by a zero hash. */
  function Removed(s: seq<Kv>, key: seq<Byte>): seq<Kv> {
    var n := FirstMatch(s, key);
    if n < |s| then s[n := s[n].(hash := 0)] else s
  }

  method Find(l: List<Kv>, key: seq<Byte>) returns (iter: ListIterator<Kv>, ghost n: nat, ghost k: nat, ghost c: nat)
    requires l.Valid()
    ensures At(iter, l, k, c) && InRange(l.chunks, k, c) && n == |Before(l.chunks, k, c)|
    ensures n == FirstMatch(l.Contents(), key) && IsFirst(l.Contents(), key, n)
    ensures iter.IsEnd() <==> n == |l.Contents()|
    ensures n < |l.Contents()| ==> iter.More()
  {
    var p := (kv: Kv) => IEquals(kv.key, key);
    iter, n, k, c := Lists.Find(l, p);
    FirstMatchIs(l.Contents(), key, n);
    FirstMatchIsFirst(l.Contents(), key);
  }

  method Has(l: List<Kv>, key: seq<Byte>) returns (r: bool)
    requires l.Valid()
    ensures r <==> exists kv :: kv in l.Contents() && CaseVariant(kv.key, key)
  {
    var iter;
    ghost var n, k, c;
    iter, n, k, c := Find(l, key);
    r := !iter.IsEnd();
  }

  /** NgxHeaders::operator[]: the first match's value, or a null string. */
  method Get(l: List<Kv>, key: seq<Byte>) returns (value: seq<Byte>)
    requires l.Valid()
    ensures var n := FirstMatch(l.Contents(), key);
            && IsFirst(l.Contents(), key, n)
            && value == if n < |l.Contents()| then l.Contents()[n].value else []
  {
    FirstMatchIsFirst(l.Contents(), key);
    var iter;
    ghost var n, k, c;
    iter, n, k, c := Find(l, key);
    if iter.IsEnd() {
      return [];
    }
    SlotIs(l.chunks, k, c);
    var kv := Item(iter, l, k, c);
    return kv.value;
  }

  /** NgxHeaders::add: an entry is never added with a zero hash. */
  method Add(l: List<Kv>, kv: Kv, granted: bool) returns (ok: bool)
    requires l.Valid()
    modifies l`last, l`parts, l`chunks, l.last`nelts, l.last`next, l.last.elts
    ensures l.Valid()
    ensures ok <==> old(l.last.nelts) < l.nalloc || granted
    ensures ok ==>
              l.Contents() == old(l.Contents()) + [Kv(if kv.hash == 0 then 1 else kv.hash, kv.key, kv.value)]
    ensures !ok ==> l.Contents() == old(l.Contents())
    ensures ok ==> l.last.nelts == if old(l.last.nelts) < l.nalloc then old(l.last.nelts) + 1 else 1
  {
    var tmp := kv;
    if tmp.hash == 0 {
      tmp := tmp.(hash := 1);
    }
    ok := l.Push(tmp, granted);
  }

  /** What the last part has room for. */
  ghost function Room(l: List<Kv>): nat
    requires l.last.nelts <= l.nalloc
    reads l, l.last
  {
    l.nalloc - l.last.nelts
  }

  /** The same, with the memory of a new part asked of the pool. */
  method AddFrom(l: List<Kv>, kv: Kv, pool: Pool) returns (ok: bool)
    requires l.Valid()
    modifies l`last, l`parts, l`chunks, l.last`nelts, l.last`next, l.last.elts, pool`grants
    ensures l.Valid() && l.last.nelts <= l.nalloc
    ensures ok <==> old(l.last.nelts) < l.nalloc || AllGranted(old(pool.grants), 2)
    ensures l.Contents() == if ok then old(l.Contents()) + [Kv(if kv.hash == 0 then 1 else kv.hash, kv.key, kv.value)]
                            else old(l.Contents())
    ensures ok ==> Room(l) == if old(Room(l)) == 0 then l.nalloc - 1 else old(Room(l)) - 1
    ensures ok ==> pool.grants == if old(Room(l)) == 0 then After(old(pool.grants), 2) else old(pool.grants)
  {
    var granted := true;
    if l.last.nelts == l.nalloc {
      granted := pool.Palloc();
      if granted {
        granted := pool.Palloc();
      }
    }
    ok := Add(l, kv, granted);
  }

  method Remove(l: List<Kv>, key: seq<Byte>)
    requires l.Valid()
    modifies l`chunks, Arrays(l.parts)
    ensures l.Valid() && l.Contents() == Removed(old(l.Contents()), key)
  {
    var iter;
    ghost var n, k, c;
    iter, n, k, c := Find(l, key);
    if iter.IsEnd() {
      return;
    }
    SlotIs(l.chunks, k, c);
    var kv := Item(iter, l, k, c);
    Assign(l, iter, kv.(hash := 0), k, c);
  }

  /** Of the entries with this key but for case, the first one's hash becomes zero; nothing else changes. */
  lemma RemovedIs(s: seq<Kv>, key: seq<Byte>, n: nat)
    requires IsFirst(s, key, n)
    ensures Removed(s, key) == if n < |s| then s[n := Kv(0, s[n].key, s[n].value)] else s
  {
    FirstMatchIsFirst(s, key);
  }

  /** Removing keeps every key, value and position, so every lookup finds what it found before. */
  lemma RemoveKeepsLookups(s: seq<Kv>, key: seq<Byte>, other: seq<Byte>)
    ensures |Removed(s, key)| == |s|
    ensures forall i :: 0 <= i < |s| ==> Removed(s, key)[i].key == s[i].key && Removed(s, key)[i].value == s[i].value
    ensures forall i :: 0 <= i < |s| && i != FirstMatch(s, key) ==> Removed(s, key)[i] == s[i]
    ensures FirstMatch(Removed(s, key), other) == FirstMatch(s, other)
    ensures Removed(Removed(s, key), key) == Removed(s, key)
  {
    FirstMatchIs(Removed(s, key), other, FirstMatch(s, other));
    FirstMatchIs(Removed(s, key), key, FirstMatch(s, key));
  }

  /** An entry that is still sent has a non-zero hash. */
  predicate Live(s: seq<Kv>, key: seq<Byte>) {
    exists i :: 0 <= i < |s| && IEquals(s[i].key, key) && s[i].hash != 0
  }

  /**
   After a removal no live entry has the key exactly when no match after the first
   was live; a second removal does not help, as it marks the same entry again.
   */
  lemma RemoveHidesExactly(s: seq<Kv>, key: seq<Byte>)
    ensures !Live(Removed(s, key), key) <==>
            forall i :: FirstMatch(s, key) < i < |s| && IEquals(s[i].key, key) ==> s[i].hash == 0
  {
  }
}
