/**
 Footer filters stacked: the first configuration of a sequence is the top of the
 stack, the filter registered last.
 */
module FooterStack {
  import opened Buffers
  import opened Chains
  import opened Entries
  import opened FooterSpec

  /** One call through every filter down to the base. */
  function Pass(flags: seq<nat>, cfs: seq<Conf>, m: Msg): (r: (seq<nat>, Msg))
    requires |flags| == |cfs|
    ensures |r.0| == |cfs|
    ensures m.Header? <==> r.1.Header?
    decreases |cfs|
  {
    if cfs == [] then ([], m)
    else
      var (flag, m1) := Stage(flags[0], cfs[0], m);
      var (rest, m2) := Pass(flags[1..], cfs[1..], m1);
      ([flag] + rest, m2)
  }

  function PassFlags(flags: seq<nat>, cfs: seq<Conf>, ms: seq<Msg>): (r: seq<nat>)
    requires |flags| == |cfs|
    ensures |r| == |cfs|
    decreases |ms|
  {
    if ms == [] then flags else PassFlags(Pass(flags, cfs, ms[0]).0, cfs, ms[1..])
  }

  /** What the base filters receive over a run of calls. */
  function PassAll(flags: seq<nat>, cfs: seq<Conf>, ms: seq<Msg>): (r: seq<Msg>)
    requires |flags| == |cfs|
    ensures |r| == |ms|
    ensures forall i :: 0 <= i < |ms| ==> (r[i].Header? <==> ms[i].Header?)
    decreases |ms|
  {
    if ms == [] then []
    else [Pass(flags, cfs, ms[0]).1] + PassAll(Pass(flags, cfs, ms[0]).0, cfs, ms[1..])
  }

  /**
   What a filter that fails for want of memory leaves of its flag and of the call:
   a header call fails only when it is the first, and some of the headers may be
   in by then; a body call moves the flag on even if its edit is refused.
   */
  ghost predicate FailedHere(flag: nat, cf: Conf, m: Msg, flag': nat, m': Msg) {
    match m
    case Header(n, hs) =>
      && flag == 0 && flag' <= 1
      && exists k: nat :: k <= |cf.headers| && m' == Header(n, hs + Listed(cf.headers)[..k]) && (flag' == 0 ==> k == 0)
    case Body(_) =>
      m' == m && cf.footer != [] && if Edits(flag, cf, m) then flag' == 2 else flag == flag' == 0
  }

  /** A call that fails part way down: the filters above have taken their step, those below none. */
  ghost predicate FailedCall(flags: seq<nat>, cfs: seq<Conf>, m: Msg, flags': seq<nat>, m': Msg)
    requires |flags| == |cfs| == |flags'|
    decreases |cfs|
  {
    cfs != [] && if flags'[1..] == flags[1..] && FailedHere(flags[0], cfs[0], m, flags'[0], m') then true
    else
      var (flag, m1) := Stage(flags[0], cfs[0], m);
      flags'[0] == flag && FailedCall(flags[1..], cfs[1..], m1, flags'[1..], m')
  }

  ghost predicate FailedSomewhere(flags: seq<nat>, cfs: seq<Conf>, m: Msg, flags': seq<nat>)
    requires |flags| == |cfs| == |flags'|
  {
    exists m' :: FailedCall(flags, cfs, m, flags', m')
  }

  lemma PassCons(flags: seq<nat>, cfs: seq<Conf>, m: Msg, ms: seq<Msg>)
    requires |flags| == |cfs|
    ensures PassAll(flags, cfs, [m] + ms) == [Pass(flags, cfs, m).1] + PassAll(Pass(flags, cfs, m).0, cfs, ms)
    ensures PassFlags(flags, cfs, [m] + ms) == PassFlags(Pass(flags, cfs, m).0, cfs, ms)
  {
    assert ([m] + ms)[1..] == ms;
  }

  lemma {:induction false} PassFlagsConcat(flags: seq<nat>, cfs: seq<Conf>, ms: seq<Msg>, ns: seq<Msg>)
    requires |flags| == |cfs|
    ensures PassFlags(flags, cfs, ms + ns) == PassFlags(PassFlags(flags, cfs, ms), cfs, ns)
    decreases |ms|
  {
    if ms == [] {
      assert ms + ns == ns;
    } else {
      assert ms + ns == [ms[0]] + (ms[1..] + ns);
      PassCons(flags, cfs, ms[0], ms[1..] + ns);
      PassFlagsConcat(Pass(flags, cfs, ms[0]).0, cfs, ms[1..], ns);
    }
  }

  lemma {:induction false} PassAllConcat(flags: seq<nat>, cfs: seq<Conf>, ms: seq<Msg>, ns: seq<Msg>)
    requires |flags| == |cfs|
    ensures PassAll(flags, cfs, ms + ns) == PassAll(flags, cfs, ms) + PassAll(PassFlags(flags, cfs, ms), cfs, ns)
    decreases |ms|
  {
    if ms == [] {
      assert ms + ns == ns;
    } else {
      assert ms + ns == [ms[0]] + (ms[1..] + ns);
      PassCons(flags, cfs, ms[0], ms[1..] + ns);
      PassAllConcat(Pass(flags, cfs, ms[0]).0, cfs, ms[1..], ns);
    }
  }

  lemma {:induction false} PassAllEmpty(ms: seq<Msg>)
    ensures PassAll([], [], ms) == ms
    decreases |ms|
  {
    if ms != [] {
      PassAllEmpty(ms[1..]);
    }
  }

  /** Filtering call by call through the stack is filtering the whole run filter by filter. */
  lemma {:induction false} StackIsComposition(flags: seq<nat>, cfs: seq<Conf>, ms: seq<Msg>)
    requires |flags| == |cfs| && cfs != []
    ensures PassAll(flags, cfs, ms) == PassAll(flags[1..], cfs[1..], Run(flags[0], cfs[0], ms))
    decreases |ms|
  {
    if ms != [] {
      StackIsComposition(Pass(flags, cfs, ms[0]).0, cfs, ms[1..]);
    }
  }

  /** The footers in the order they follow the body: the top filter's first. */
  function Footers(cfs: seq<Conf>): seq<Byte> {
    if cfs == [] then [] else cfs[0].footer + Footers(cfs[1..])
  }

  function AddedHeaders(cfs: seq<Conf>): seq<Kv> {
    if cfs == [] then [] else Listed(cfs[0].headers) + AddedHeaders(cfs[1..])
  }

  /** How many headers some filters are configured with. */
  function CountHeaders(cfs: seq<Conf>): nat {
    if cfs == [] then 0 else |cfs[0].headers| + CountHeaders(cfs[1..])
  }

  /** The i-th header of the j-th filter comes behind those of the filters above it. */
  lemma {:induction false} AddedHeadersAre(cfs: seq<Conf>, j: nat, i: nat)
    requires j < |cfs| && i < |cfs[j].headers|
    ensures |AddedHeaders(cfs)| == CountHeaders(cfs) && CountHeaders(cfs[..j]) + i < |AddedHeaders(cfs)|
    ensures AddedHeaders(cfs)[CountHeaders(cfs[..j]) + i] == Kv(1, cfs[j].headers[i].key, cfs[j].headers[i].value)
    decreases |cfs|
  {
    CountAdded(cfs[1..]);
    if j > 0 {
      AddedHeadersAre(cfs[1..], j - 1, i);
      assert cfs[..j][1..] == cfs[1..][..j - 1];
    }
  }

  lemma {:induction false} CountAdded(cfs: seq<Conf>)
    ensures |AddedHeaders(cfs)| == CountHeaders(cfs)
    decreases |cfs|
  {
    if cfs != [] {
      CountAdded(cfs[1..]);
    }
  }

  function Fresh(cfs: seq<Conf>): seq<nat> {
    seq(|cfs|, _ => 0)
  }

  /** The first header call through fresh filters: every footer's size and every filter's headers are added. */
  lemma {:induction false} FirstHeader(cfs: seq<Conf>, n: int, hs: seq<Kv>)
    ensures Pass(Fresh(cfs), cfs, Header(n, hs)).1 ==
            Header(if n > 0 then n + |Footers(cfs)| else n, hs + AddedHeaders(cfs))
    decreases |cfs|
  {
    if cfs == [] {
      assert hs + [] == hs;
    } else {
      assert Fresh(cfs)[1..] == Fresh(cfs[1..]);
      FirstHeader(cfs[1..], DeclaredLength(n, cfs[0].footer), hs + Listed(cfs[0].headers));
      assert (hs + Listed(cfs[0].headers)) + AddedHeaders(cfs[1..]) == hs + AddedHeaders(cfs);
    }
  }

  /** After its first header call a filter leaves every other header call alone. */
  lemma {:induction false} RunKeepsHeaders(flag: nat, cf: Conf, ms: seq<Msg>, i: nat)
    requires flag != 0 && i < |ms| && ms[i].Header?
    ensures Run(flag, cf, ms)[i] == ms[i]
    decreases |ms|
  {
    if i > 0 {
      RunKeepsHeaders(Stage(flag, cf, ms[0]).0, cf, ms[1..], i - 1);
    }
  }

  /**
   A whole response through the stack: the header goes down once edited, with the
   length grown by every footer and each filter's headers added once; the body
   leaves followed by every footer, with its end marked on the very last link;
   later header calls change nothing.
   */
  lemma {:induction false} StackAppendsFooters(cfs: seq<Conf>, n: int, hs: seq<Kv>, ms: seq<Msg>)
    requires WellFormed(Stream(ms))
    ensures
      var out := PassAll(Fresh(cfs), cfs, [Header(n, hs)] + ms);
      && out[0] == Header(if n > 0 then n + |Footers(cfs)| else n, hs + AddedHeaders(cfs))
      && Flatten(Stream(out[1..])) == Flatten(Stream(ms)) + Footers(cfs)
      && WellFormed(Stream(out[1..]))
      && (forall i :: 0 <= i < |ms| && ms[i].Header? ==> out[1 + i] == ms[i])
    decreases |cfs|
  {
    var all := [Header(n, hs)] + ms;
    FirstHeader(cfs, n, hs);
    if cfs == [] {
      assert Fresh(cfs) == [];
      PassAllEmpty(all);
      assert hs + [] == hs;
    } else {
      var cf := cfs[0];
      assert all[1..] == ms;
      assert Fresh(cfs)[1..] == Fresh(cfs[1..]);
      StackIsComposition(Fresh(cfs), cfs, all);
      var n1, hs1, ms1 := DeclaredLength(n, cf.footer), hs + Listed(cf.headers), Run(1, cf, ms);
      assert Run(0, cf, all) == [Header(n1, hs1)] + ms1;
      OneFilter(cf, ms);
      StackAppendsFooters(cfs[1..], n1, hs1, ms1);
      forall i | 0 <= i < |ms| && ms[i].Header?
        ensures ms1[i] == ms[i]
      {
        RunKeepsHeaders(1, cf, ms, i);
      }
      assert (Flatten(Stream(ms)) + cf.footer) + Footers(cfs[1..]) == Flatten(Stream(ms)) + Footers(cfs);
    }
  }

  lemma EditedOrNot(ps: seq<Piece>, out: seq<Piece>, footer: seq<Byte>)
    requires WellFormed(ps) && out == if footer == [] then ps else EditAt(ps, |ps| - 1, footer)
    ensures Flatten(out) == Flatten(ps) + footer && WellFormed(out)
  {
    if footer == [] {
      assert Flatten(ps) + [] == Flatten(ps);
    } else {
      EditFlattens(ps, footer);
    }
  }

  lemma OneFilter(cf: Conf, ms: seq<Msg>)
    requires WellFormed(Stream(ms))
    ensures Flatten(Stream(Run(1, cf, ms))) == Flatten(Stream(ms)) + cf.footer
    ensures WellFormed(Stream(Run(1, cf, ms)))
  {
    if cf.footer == [] {
      RunPasses(1, cf, ms);
    } else {
      RunEdits(cf, ms);
    }
    EditedOrNot(Stream(ms), Stream(Run(1, cf, ms)), cf.footer);
  }

  /** A body that has not ended yet leaves the stack untouched, whatever the filters have seen. */
  lemma {:induction false} StackHoldsFooters(flags: seq<nat>, cfs: seq<Conf>, ms: seq<Msg>)
    requires |flags| == |cfs| && !HasEof(Stream(ms))
    ensures Stream(PassAll(flags, cfs, ms)) == Stream(ms)
    decreases |cfs|
  {
    if cfs == [] {
      PassAllEmpty(ms);
    } else {
      StackIsComposition(flags, cfs, ms);
      RunPasses(flags[0], cfs[0], ms);
      StackHoldsFooters(flags[1..], cfs[1..], Run(flags[0], cfs[0], ms));
    }
  }

  /**
   Content-Length (section 3.3.2 of RFC 7230). When the handler declares the
   length of the body it sends, the length leaving the stack is the number of
   bytes leaving it, except for an empty body with a footer configured: its
   declared 0 is left as it was.
   */
  lemma LengthConserved(cfs: seq<Conf>, n: int, hs: seq<Kv>, ms: seq<Msg>)
    requires WellFormed(Stream(ms))
    ensures
      var out := PassAll(Fresh(cfs), cfs, [Header(n, hs)] + ms);
      && (n < 0 ==> out[0].length == n)
      && (n == |Flatten(Stream(ms))| ==>
            (out[0].length == |Flatten(Stream(out[1..]))| <==> n > 0 || forall cf :: cf in cfs ==> cf.footer == []))
  {
    StackAppendsFooters(cfs, n, hs, ms);
    NoFooters(cfs);
  }

  lemma {:induction false} NoFooters(cfs: seq<Conf>)
    ensures Footers(cfs) == [] <==> forall cf :: cf in cfs ==> cf.footer == []
    decreases |cfs|
  {
    if cfs != [] {
      NoFooters(cfs[1..]);
      assert cfs == [cfs[0]] + cfs[1..];
      assert cfs[0] in cfs;
      assert forall cf :: cf in cfs[1..] ==> cf in cfs;
    }
  }
}
