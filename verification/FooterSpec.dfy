/**
 What a footer filter does to the stream of calls it receives, on values: one
 call, and a whole run of calls.
 */
module FooterSpec {
  import opened Buffers
  import opened Chains
  import opened Entries

  /** A location's configuration: the headers to add and the footer to append. */
  datatype Conf = Conf(headers: seq<KeyVal>, footer: seq<Byte>)

  /** One call down the filter stack: the response header, or a piece of the body. */
  datatype Msg = Header(length: int, headers: seq<Kv>) | Body(pieces: seq<Piece>)

  // ---------- one call ----------

  /** The first link from `ps` on whose buffer ends the response; |ps| when there is none. */
  function FirstEof(ps: seq<Piece>): (k: nat)
    ensures k <= |ps|
    ensures k < |ps| ==> ps[k].lastBuf
    ensures forall i :: 0 <= i < k ==> !ps[i].lastBuf
  {
    if ps == [] || ps[0].lastBuf then 0 else 1 + FirstEof(ps[1..])
  }

  lemma FirstEofIs(ps: seq<Piece>, k: nat)
    requires k <= |ps| && (k < |ps| ==> ps[k].lastBuf)
    requires forall i :: 0 <= i < k ==> !ps[i].lastBuf
    ensures FirstEof(ps) == k
  {
  }

  predicate HasEof(ps: seq<Piece>) {
    FirstEof(ps) < |ps|
  }

  function FooterPiece(footer: seq<Byte>): Piece {
    Piece(footer, true, true)
  }

  /** The edit at link k: a zero-size buffer is replaced, otherwise a new last link follows it. */
  function EditAt(ps: seq<Piece>, k: nat, footer: seq<Byte>): seq<Piece>
    requires k < |ps|
  {
    if ps[k].bytes == [] then
      ps[k := FooterPiece(footer)]
    else
      ps[..k] + [Piece(ps[k].bytes, false, false), FooterPiece(footer)]
  }

  function DeclaredLength(n: int, footer: seq<Byte>): int {
    if footer != [] && n > 0 then n + |footer| else n
  }

  /** Configured headers as they are added. */
  function Listed(headers: seq<KeyVal>): (r: seq<Kv>)
    ensures |r| == |headers|
    ensures forall i :: 0 <= i < |r| ==>
              r[i].hash == 1 && r[i].key == headers[i].key && r[i].value == headers[i].value
  {
    seq(|headers|, i requires 0 <= i < |headers| => Kv(1, headers[i].key, headers[i].value))
  }

  /** One call through one filter when memory is granted. The flag only moves from 0 to 1 and from 1 to 2. */
  function Stage(flag: nat, cf: Conf, m: Msg): (r: (nat, Msg))
    ensures r.0 == flag || (flag < 2 && r.0 == flag + 1)
    ensures m.Header? <==> r.1.Header?
  {
    match m
    case Header(n, hs) =>
      if flag != 0 then (flag, m)
      else (1, Header(DeclaredLength(n, cf.footer), hs + Listed(cf.headers)))
    case Body(ps) =>
      if cf.footer == [] || flag != 1 || !HasEof(ps) then (flag, m)
      else (2, Body(EditAt(ps, FirstEof(ps), cf.footer)))
  }

  // ---------- a run of calls ----------

  function RunFlag(flag: nat, cf: Conf, ms: seq<Msg>): nat
    decreases |ms|
  {
    if ms == [] then flag else RunFlag(Stage(flag, cf, ms[0]).0, cf, ms[1..])
  }

  /** What the next filter receives over the run. */
  function Run(flag: nat, cf: Conf, ms: seq<Msg>): (r: seq<Msg>)
    ensures |r| == |ms|
    decreases |ms|
  {
    if ms == [] then []
    else [Stage(flag, cf, ms[0]).1] + Run(Stage(flag, cf, ms[0]).0, cf, ms[1..])
  }

  /** The whole body of a run as one chain. */
  function Stream(ms: seq<Msg>): seq<Piece> {
    if ms == [] then []
    else if ms[0].Body? then ms[0].pieces + Stream(ms[1..])
    else Stream(ms[1..])
  }

  /** The end of the response is marked on the last link and nowhere else. */
  predicate WellFormed(ps: seq<Piece>) {
    ps != [] && FirstEof(ps) == |ps| - 1
  }

  lemma FirstEofConcat(ps: seq<Piece>, qs: seq<Piece>)
    ensures FirstEof(ps + qs) == if HasEof(ps) then FirstEof(ps) else |ps| + FirstEof(qs)
  {
    var k := if HasEof(ps) then FirstEof(ps) else |ps| + FirstEof(qs);
    forall i | 0 <= i < k
      ensures !(ps + qs)[i].lastBuf
    {
      if i >= |ps| {
        assert (ps + qs)[i] == qs[i - |ps|];
      }
    }
    FirstEofIs(ps + qs, k);
  }

  /** Once the footer is out, and before any header, everything passes through unchanged. */
  lemma {:induction false} RunPasses(flag: nat, cf: Conf, ms: seq<Msg>)
    requires cf.footer == [] || flag >= 2 || !HasEof(Stream(ms)) || (flag == 0 && forall m :: m in ms ==> m.Body?)
    ensures Stream(Run(flag, cf, ms)) == Stream(ms)
    ensures flag != 0 || (forall m :: m in ms ==> m.Body?) ==>
              && Run(flag, cf, ms) == ms
              && RunFlag(flag, cf, ms) == flag
    decreases |ms|
  {
    if ms != [] {
      if ms[0].Body? {
        FirstEofConcat(ms[0].pieces, Stream(ms[1..]));
      }
      forall m | m in ms[1..]
        ensures m in ms
      {
      }
      RunPasses(Stage(flag, cf, ms[0]).0, cf, ms[1..]);
    }
  }

  lemma WellFormedSplit(head: seq<Piece>, rest: seq<Piece>)
    requires WellFormed(head + rest)
    ensures if HasEof(head) then rest == [] && WellFormed(head) else WellFormed(rest)
  {
    FirstEofConcat(head, rest);
  }

  lemma EditAtConcat(head: seq<Piece>, rest: seq<Piece>, footer: seq<Byte>)
    requires rest != []
    ensures EditAt(head + rest, |head + rest| - 1, footer) == head + EditAt(rest, |rest| - 1, footer)
  {
  }

  lemma RunCons(flag: nat, cf: Conf, m: Msg, ms: seq<Msg>)
    ensures Run(flag, cf, [m] + ms) == [Stage(flag, cf, m).1] + Run(Stage(flag, cf, m).0, cf, ms)
    ensures RunFlag(flag, cf, [m] + ms) == RunFlag(Stage(flag, cf, m).0, cf, ms)
  {
    assert ([m] + ms)[1..] == ms;
  }

  lemma StreamCons(m: Msg, ms: seq<Msg>)
    requires m.Body?
    ensures Stream([m] + ms) == m.pieces + Stream(ms)
  {
    assert ([m] + ms)[1..] == ms;
  }

  /** The case of RunEdits where the first chain carries the end of the body. */
  lemma EditsAtOnce(cf: Conf, m: Msg, rest: seq<Msg>)
    requires cf.footer != [] && m.Body? && WellFormed(m.pieces) && Stream(rest) == []
    ensures var ms := [m] + rest;
            && Stream(ms) == m.pieces && RunFlag(1, cf, ms) == 2
            && Stream(Run(1, cf, ms)) == EditAt(Stream(ms), |Stream(ms)| - 1, cf.footer)
  {
    var out := EditAt(m.pieces, |m.pieces| - 1, cf.footer);
    RunCons(1, cf, m, rest);
    StreamCons(m, rest);
    RunPasses(2, cf, rest);
    StreamCons(Body(out), rest);
    assert out + [] == out && m.pieces + [] == m.pieces;
  }

  /** The case of one more header call, which a started filter leaves alone. */
  lemma EditsPastHeader(cf: Conf, m: Msg, rest: seq<Msg>)
    requires m.Header? && Stream(rest) != [] && RunFlag(1, cf, rest) == 2
    requires Stream(Run(1, cf, rest)) == EditAt(Stream(rest), |Stream(rest)| - 1, cf.footer)
    ensures var ms := [m] + rest;
            && Stream(ms) == Stream(rest) && RunFlag(1, cf, ms) == 2
            && Stream(Run(1, cf, ms)) == EditAt(Stream(ms), |Stream(ms)| - 1, cf.footer)
  {
    RunCons(1, cf, m, rest);
    assert ([m] + rest)[1..] == rest;
    assert ([m] + Run(1, cf, rest))[1..] == Run(1, cf, rest);
  }

  /** The case where the end is still to come: the first chain passes, the rest is edited. */
  lemma EditsLater(cf: Conf, m: Msg, rest: seq<Msg>)
    requires cf.footer != [] && m.Body? && !HasEof(m.pieces)
    requires Stream(rest) != [] && RunFlag(1, cf, rest) == 2
    requires Stream(Run(1, cf, rest)) == EditAt(Stream(rest), |Stream(rest)| - 1, cf.footer)
    ensures var ms := [m] + rest;
            && Stream(ms) != [] && RunFlag(1, cf, ms) == 2
            && Stream(Run(1, cf, ms)) == EditAt(Stream(ms), |Stream(ms)| - 1, cf.footer)
  {
    RunCons(1, cf, m, rest);
    StreamCons(m, rest);
    StreamCons(m, Run(1, cf, rest));
    EditAtConcat(m.pieces, Stream(rest), cf.footer);
  }

  /**
   The streaming filter refines the one-shot edit: however the body is cut into
   chains, and however often the header filter is called in between.
   */
  lemma {:induction false} RunEdits(cf: Conf, ms: seq<Msg>)
    requires cf.footer != [] && WellFormed(Stream(ms))
    ensures Stream(Run(1, cf, ms)) == EditAt(Stream(ms), |Stream(ms)| - 1, cf.footer)
    ensures RunFlag(1, cf, ms) == 2
    decreases |ms|
  {
    var m, rest := ms[0], ms[1..];
    assert ms == [m] + rest;
    if m.Header? {
      RunEdits(cf, rest);
      EditsPastHeader(cf, m, rest);
    } else {
      WellFormedSplit(m.pieces, Stream(rest));
      if HasEof(m.pieces) {
        EditsAtOnce(cf, m, rest);
      } else {
        RunEdits(cf, rest);
        EditsLater(cf, m, rest);
      }
    }
  }

  lemma EditFlattens(ps: seq<Piece>, footer: seq<Byte>)
    requires WellFormed(ps)
    ensures Flatten(EditAt(ps, |ps| - 1, footer)) == Flatten(ps) + footer
    ensures WellFormed(EditAt(ps, |ps| - 1, footer))
  {
    var k := |ps| - 1;
    var p := ps[k];
    var out := EditAt(ps, k, footer);
    assert ps == ps[..k] + [p];
    FlattenSnoc(ps[..k], p);
    if p.bytes == [] {
      assert out == ps[..k] + [FooterPiece(footer)];
      FlattenSnoc(ps[..k], FooterPiece(footer));
      FirstEofIs(out, k);
    } else {
      assert out == (ps[..k] + [Piece(p.bytes, false, false)]) + [FooterPiece(footer)];
      FlattenSnoc(ps[..k], Piece(p.bytes, false, false));
      FlattenSnoc(ps[..k] + [Piece(p.bytes, false, false)], FooterPiece(footer));
      FirstEofIs(out, k + 1);
    }
  }

  /** No link but the last carries a mark of either kind, and the last carries both. */
  predicate MarkedLastOnly(ps: seq<Piece>) {
    && ps != [] && ps[|ps| - 1].lastBuf && ps[|ps| - 1].lastInChain
    && forall i :: 0 <= i < |ps| - 1 ==> !ps[i].lastBuf && !ps[i].lastInChain
  }

  /**
   The marks move to the footer: a body marked nowhere before its end, whichever
   marks that carries, leaves with both marks on the footer and none before it.
   */
  lemma EditMovesMarks(ps: seq<Piece>, footer: seq<Byte>)
    requires ps != [] && forall i :: 0 <= i < |ps| - 1 ==> !ps[i].lastBuf && !ps[i].lastInChain
    ensures MarkedLastOnly(EditAt(ps, |ps| - 1, footer))
    ensures var out := EditAt(ps, |ps| - 1, footer); out[|out| - 1].bytes == footer
  {
  }

  lemma FlattenAround(before: seq<Piece>, p: Piece, rest: seq<Piece>)
    ensures Flatten(before + ([p] + rest)) == Flatten(before) + (p.bytes + Flatten(rest))
  {
    FlattenConcat(before, [p] + rest);
    assert ([p] + rest)[1..] == rest;
  }

  lemma ReplacedBytes(ps: seq<Piece>, k: nat, p: Piece)
    requires k < |ps|
    ensures Flatten(ps[k := p]) == Flatten(ps[..k]) + (p.bytes + Flatten(ps[k + 1..]))
  {
    assert ps[k := p] == ps[..k] + ([p] + ps[k + 1..]);
    FlattenAround(ps[..k], p, ps[k + 1..]);
  }

  lemma EndedBytes(before: seq<Piece>, p: Piece, last: Piece)
    ensures Flatten(before + [p, last]) == Flatten(before) + (p.bytes + last.bytes)
  {
    assert [p, last] == [p] + [last];
    FlattenAround(before, p, [last]);
    FlattenSnoc([], last);
    assert [] + [last] == [last];
  }

  lemma Commutes(a: seq<Byte>, r: seq<Byte>, f: seq<Byte>)
    ensures a + (f + r) == a + r + f <==> f + r == r + f
  {
    var u, v := a + (f + r), a + (r + f);
    assert a + r + f == v;
    assert u[|a|..] == f + r && v[|a|..] == r + f;
  }

  lemma Drops(a: seq<Byte>, x: seq<Byte>, r: seq<Byte>, f: seq<Byte>)
    ensures a + (x + f) == a + (x + r) + f <==> r == []
  {
  }

  /**
   A chain with links behind the one that ends the response: behind bytes they are
   dropped, behind an empty buffer they follow the footer. So the edit appends the
   footer exactly when nothing is dropped, or when footer and rest commute.
   */
  lemma EditAppendsExactly(ps: seq<Piece>, k: nat, footer: seq<Byte>)
    requires k < |ps|
    ensures
      var rest := Flatten(ps[k + 1..]);
      Flatten(EditAt(ps, k, footer)) == Flatten(ps) + footer <==>
      if ps[k].bytes == [] then footer + rest == rest + footer else rest == []
  {
    var a, x, r := Flatten(ps[..k]), ps[k].bytes, Flatten(ps[k + 1..]);
    assert ps[k := ps[k]] == ps;
    ReplacedBytes(ps, k, ps[k]);
    if x == [] {
      ReplacedBytes(ps, k, FooterPiece(footer));
      assert x + r == r;
      Commutes(a, r, footer);
    } else {
      EndedBytes(ps[..k], Piece(x, false, false), FooterPiece(footer));
      Drops(a, x, r, footer);
    }
  }

  /** The header filter is called before the end of the body goes by. */
  predicate HeaderFirst(ms: seq<Msg>) {
    ms != [] && (ms[0].Header? || (!HasEof(ms[0].pieces) && HeaderFirst(ms[1..])))
  }

  lemma FlattenPrefixed(head: seq<Piece>, rest: seq<Piece>, out: seq<Piece>, tail: seq<Byte>)
    requires !HasEof(head) && WellFormed(out) && Flatten(out) == Flatten(rest) + tail
    ensures Flatten(head + out) == Flatten(head + rest) + tail && WellFormed(head + out)
  {
    FlattenConcat(head, rest);
    FlattenConcat(head, out);
    FirstEofConcat(head, out);
    assert Flatten(head) + (Flatten(rest) + tail) == (Flatten(head) + Flatten(rest)) + tail;
  }

  lemma {:induction false} FooterOnce(cf: Conf, ms: seq<Msg>)
    requires WellFormed(Stream(ms))
    ensures Flatten(Stream(Run(0, cf, ms))) == Flatten(Stream(ms)) + (if HeaderFirst(ms) then cf.footer else [])
    ensures WellFormed(Stream(Run(0, cf, ms)))
    decreases |ms|
  {
    if cf.footer == [] {
      RunPasses(0, cf, ms);
    } else if ms[0].Header? {
      RunEdits(cf, ms[1..]);
      EditFlattens(Stream(ms), cf.footer);
    } else {
      var head, rest := ms[0].pieces, Stream(ms[1..]);
      WellFormedSplit(head, rest);
      if HasEof(head) {
        RunPasses(0, cf, ms[1..]);
      } else {
        FooterOnce(cf, ms[1..]);
        FlattenPrefixed(head, rest, Stream(Run(0, cf, ms[1..])), if HeaderFirst(ms) then cf.footer else []);
      }
    }
  }

  /**
   From a fresh request, a complete body leaves with one copy of the footer
   exactly when the header filter was called in time; otherwise it leaves as it came.
   */
  lemma FooterExactlyOnce(cf: Conf, ms: seq<Msg>)
    requires WellFormed(Stream(ms))
    ensures WellFormed(Stream(Run(0, cf, ms)))
    ensures Flatten(Stream(Run(0, cf, ms))) == Flatten(Stream(ms)) + cf.footer <==> cf.footer == [] || HeaderFirst(ms)
    ensures Flatten(Stream(Run(0, cf, ms))) == Flatten(Stream(ms)) <==> cf.footer == [] || !HeaderFirst(ms)
  {
    FooterOnce(cf, ms);
  }

  // ---------- refused memory ----------

  predicate Edits(flag: nat, cf: Conf, m: Msg) {
    m.Body? && cf.footer != [] && flag == 1 && HasEof(m.pieces)
  }

  /** One call when the memory for an edit may be refused: the flag moves on, nothing is passed. */
  function StageOr(flag: nat, cf: Conf, m: Msg, granted: bool): (nat, seq<Msg>) {
    if Edits(flag, cf, m) && !granted then (2, []) else (Stage(flag, cf, m).0, [Stage(flag, cf, m).1])
  }

  function RunOr(flag: nat, cf: Conf, ms: seq<Msg>, granted: seq<bool>): seq<Msg>
    requires |granted| == |ms|
    decreases |ms|
  {
    if ms == [] then []
    else var (f, out) := StageOr(flag, cf, ms[0], granted[0]); out + RunOr(f, cf, ms[1..], granted[1..])
  }

  /** The first call that carries the end of the body; |ms| when none does. */
  function EofCall(ms: seq<Msg>): (k: nat)
    ensures k <= |ms|
    ensures k < |ms| ==> ms[k].Body? && HasEof(ms[k].pieces)
  {
    if ms == [] || (ms[0].Body? && HasEof(ms[0].pieces)) then 0 else 1 + EofCall(ms[1..])
  }

  lemma {:induction false} RunOrPasses(cf: Conf, ms: seq<Msg>, granted: seq<bool>)
    requires |granted| == |ms|
    ensures RunOr(2, cf, ms, granted) == ms
    decreases |ms|
  {
    if ms != [] {
      RunOrPasses(cf, ms[1..], granted[1..]);
    }
  }

  function Without<T>(s: seq<T>, k: nat): seq<T>
    requires k < |s|
  {
    s[..k] + s[k + 1..]
  }

  lemma WithoutCons<T>(x: T, s: seq<T>, k: nat)
    requires k < |s|
    ensures [x] + Without(s, k) == Without([x] + s, k + 1)
  {
  }

  lemma {:induction false} EditWhenGranted(cf: Conf, ms: seq<Msg>, granted: seq<bool>)
    requires cf.footer != [] && WellFormed(Stream(ms)) && |granted| == |ms|
    requires EofCall(ms) < |ms| ==> granted[EofCall(ms)]
    ensures RunOr(1, cf, ms, granted) == Run(1, cf, ms)
    decreases |ms|
  {
    if ms[0].Header? {
      EditWhenGranted(cf, ms[1..], granted[1..]);
    } else {
      WellFormedSplit(ms[0].pieces, Stream(ms[1..]));
      if HasEof(ms[0].pieces) {
        RunOrPasses(cf, ms[1..], granted[1..]);
        RunPasses(2, cf, ms[1..]);
      } else {
        EditWhenGranted(cf, ms[1..], granted[1..]);
      }
    }
  }

  /** One call more in front of the call that is refused. */
  lemma RefusedLater(cf: Conf, m: Msg, rest: seq<Msg>, granted: seq<bool>)
    requires cf.footer != [] && (m.Body? ==> !HasEof(m.pieces)) && |granted| == 1 + |rest|
    requires var k := EofCall(rest);
             && k < |rest| && RunOr(1, cf, rest, granted[1..]) == Without(rest, k)
             && !HasEof(Stream(Without(rest, k)))
    ensures var ms, k := [m] + rest, EofCall(rest) + 1;
            && EofCall(ms) == k && RunOr(1, cf, ms, granted) == Without(ms, k) && !HasEof(Stream(Without(ms, k)))
  {
    var k, left := EofCall(rest), Without(rest, EofCall(rest));
    assert ([m] + rest)[1..] == rest;
    assert [m] + left == Without([m] + rest, k + 1) by {
      WithoutCons(m, rest, k);
    }
    assert ([m] + left)[1..] == left;
    if m.Body? {
      FirstEofConcat(m.pieces, Stream(left));
    }
  }

  lemma {:induction false} EditWhenRefused(cf: Conf, ms: seq<Msg>, granted: seq<bool>)
    requires cf.footer != [] && WellFormed(Stream(ms)) && |granted| == |ms|
    requires EofCall(ms) < |ms| ==> !granted[EofCall(ms)]
    ensures EofCall(ms) < |ms|
    ensures RunOr(1, cf, ms, granted) == Without(ms, EofCall(ms))
    ensures !HasEof(Stream(Without(ms, EofCall(ms))))
    decreases |ms|
  {
    var m, rest := ms[0], ms[1..];
    assert ms == [m] + rest;
    if m.Body? {
      WellFormedSplit(m.pieces, Stream(rest));
    }
    if m.Body? && HasEof(m.pieces) {
      RunOrPasses(cf, rest, granted[1..]);
      assert Without(ms, 0) == rest;
    } else {
      EditWhenRefused(cf, rest, granted[1..]);
      RefusedLater(cf, m, rest, granted);
    }
  }

  /**
   A started filter delivers body and footer exactly when memory is there at the
   call with the end of the body. Refused then, it is never made up for: that
   call's chain is lost and no end of the response ever leaves.
   */
  lemma RefusedForever(cf: Conf, ms: seq<Msg>, granted: seq<bool>)
    requires cf.footer != [] && WellFormed(Stream(ms)) && |granted| == |ms|
    ensures EofCall(ms) < |ms|
    ensures
      var out := RunOr(1, cf, ms, granted);
      if granted[EofCall(ms)] then WellFormed(Stream(out)) && Flatten(Stream(out)) == Flatten(Stream(ms)) + cf.footer
      else out == Without(ms, EofCall(ms)) && !HasEof(Stream(out))
  {
    if EofCall(ms) < |ms| && granted[EofCall(ms)] {
      EditWhenGranted(cf, ms, granted);
      RunEdits(cf, ms);
      EditFlattens(Stream(ms), cf.footer);
    } else {
      EditWhenRefused(cf, ms, granted);
    }
  }

  // ---------- the older filter ----------

  /** As FirstEof, but either end flag counts: what NgxBuf::last tests. */
  function FirstLast(ps: seq<Piece>): (k: nat)
    ensures k <= |ps|
    ensures k < |ps| ==> ps[k].lastBuf || ps[k].lastInChain
    ensures forall i :: 0 <= i < k ==> !ps[i].lastBuf && !ps[i].lastInChain
  {
    if ps == [] || ps[0].lastBuf || ps[0].lastInChain then 0 else 1 + FirstLast(ps[1..])
  }

  lemma FirstLastIs(ps: seq<Piece>, k: nat)
    requires k <= |ps| && (k < |ps| ==> ps[k].lastBuf || ps[k].lastInChain)
    requires forall i :: 0 <= i < k ==> !ps[i].lastBuf && !ps[i].lastInChain
    ensures FirstLast(ps) == k
  {
  }

  function LegacyStage(flag: nat, cf: Conf, m: Msg): (nat, Msg) {
    match m
    case Header(_, _) => Stage(flag, cf, m)
    case Body(ps) =>
      if cf.footer == [] || flag != 1 || FirstLast(ps) == |ps| then (flag, m)
      else (2, Body(EditAt(ps, FirstLast(ps), cf.footer)))
  }

  predicate LegacyEdits(flag: nat, cf: Conf, m: Msg) {
    m.Body? && cf.footer != [] && flag == 1 && FirstLast(m.pieces) < |m.pieces|
  }

  /** One call of the older filter when the memory for an edit may be refused. */
  function LegacyStageOr(flag: nat, cf: Conf, m: Msg, granted: bool): (nat, seq<Msg>) {
    if LegacyEdits(flag, cf, m) && !granted then (2, [])
    else (LegacyStage(flag, cf, m).0, [LegacyStage(flag, cf, m).1])
  }

  function LegacyRun(flag: nat, cf: Conf, ms: seq<Msg>): seq<Msg>
    decreases |ms|
  {
    if ms == [] then []
    else [LegacyStage(flag, cf, ms[0]).1] + LegacyRun(LegacyStage(flag, cf, ms[0]).0, cf, ms[1..])
  }

  /** The first end mark of a chain is the end of the response. */
  predicate EndsAgree(m: Msg) {
    m.Body? ==> FirstLast(m.pieces) == FirstEof(m.pieces)
  }

  lemma FirstLastBefore(ps: seq<Piece>)
    ensures FirstLast(ps) <= FirstEof(ps)
  {
  }

  /** The two filters treat a call alike exactly when no edit is due or the two end marks agree. */
  lemma FiltersAgree(flag: nat, cf: Conf, m: Msg)
    ensures LegacyStage(flag, cf, m) == Stage(flag, cf, m) <==> cf.footer == [] || flag != 1 || EndsAgree(m)
  {
    if m.Body? && cf.footer != [] && flag == 1 && !EndsAgree(m) {
      var ps := m.pieces;
      FirstLastBefore(ps);
      var k := FirstLast(ps);
      if HasEof(ps) {
        assert EditAt(ps, FirstEof(ps), cf.footer)[k] == ps[k];
        assert EditAt(ps, k, cf.footer)[k] != ps[k];
      }
    }
  }

  lemma {:induction false} FiltersAgreeOnRuns(flag: nat, cf: Conf, ms: seq<Msg>)
    requires forall m :: m in ms ==> EndsAgree(m)
    ensures LegacyRun(flag, cf, ms) == Run(flag, cf, ms)
    decreases |ms|
  {
    if ms != [] {
      FiltersAgree(flag, cf, ms[0]);
      FiltersAgreeOnRuns(Stage(flag, cf, ms[0]).0, cf, ms[1..]);
    }
  }
}
