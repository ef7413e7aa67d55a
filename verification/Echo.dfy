/** Sending a response (NgxResponse) and the echo handler, through the filter stack. */
module Echo {
  import opened Buffers
  import opened Chains
  import opened Entries
  import opened FooterSpec
  import opened FooterStack
  import opened Filters
  import opened FooterFilter
  import opened Pipeline

  const NGX_HTTP_OK := 200
  const NGX_HTTP_NOT_ALLOWED := 405

  /**
   Where an account of calls starts: the filters on the way, their flags, what had
   been received, whether the pool grants every request from then on, and whether
   no filter has had a body call before its context was there.
   */
  datatype Account = Account(order: seq<nat>, cfs: seq<Conf>, flags: seq<nat>, before: seq<Msg>, granted: bool,
                             ready: bool)

  ghost function Open(r: Request, confs: map<nat, Conf>, order: seq<nat>): Account
    requires forall x :: x in order ==> x in confs
    reads r, r.pool
  {
    Account(order, ConfsOf(confs, order), FlagsOf(r.ctx, order), r.received, AllTrue(r.pool.grants),
            r.headerSent ==> AllOpen(r.ctx, order))
  }

  /** Since the account was opened, exactly the calls of `ms` went through the stack. */
  ghost predicate Exact(r: Request, a: Account, ms: seq<Msg>)
    requires |a.flags| == |a.cfs|
    reads r
  {
    && FlagsOf(r.ctx, a.order) == PassFlags(a.flags, a.cfs, ms)
    && r.received == a.before + PassAll(a.flags, a.cfs, ms)
  }

  /** Of those calls, the first so many went through, and no later one. */
  ghost predicate Partial(r: Request, a: Account, ms: seq<Msg>)
    requires |a.flags| == |a.cfs|
    reads r
  {
    exists n: nat :: n <= |ms| && r.received == a.before + PassAll(a.flags, a.cfs, ms[..n])
  }

  /**
   The calls of `ms` were made since the account was opened: all of them went
   through when nothing failed, and always when memory is granted; otherwise only
   the first of them did.
   */
  ghost predicate Sent(r: Request, a: Account, ms: seq<Msg>, ok: bool)
    reads r, r.pool
  {
    && |a.flags| == |a.cfs|
    && (a.granted ==> ok && AllTrue(r.pool.grants))
    && (a.granted || a.ready ==> if ok then Exact(r, a, ms) else Partial(r, a, ms))
    && (a.ready && ok && r.headerSent ==> AllOpen(r.ctx, a.order))
  }

  /** When a call fails, those before it went through. */
  lemma StoppedAt(r: Request, a: Account, ms: seq<Msg>, more: seq<Msg>)
    requires |a.flags| == |a.cfs| && r.received == a.before + PassAll(a.flags, a.cfs, ms)
    ensures Partial(r, a, ms + more)
  {
    assert (ms + more)[..|ms|] == ms;
  }

  /** Once a call has failed, the calls that would have followed change nothing. */
  lemma StoppedBefore(r: Request, a: Account, ms: seq<Msg>, more: seq<Msg>)
    requires Sent(r, a, ms, false)
    ensures Sent(r, a, ms + more, false)
  {
    if a.ready {
      var n: nat :| n <= |ms| && r.received == a.before + PassAll(a.flags, a.cfs, ms[..n]);
      assert (ms + more)[..n] == ms[..n];
    }
  }

  lemma Reassociate<T>(a: seq<T>, b: seq<T>, c: seq<T>)
    ensures a + (b + c) == a + b + c
  {
  }

  lemma StoppedInside(r: Request, a: Account, ms: seq<Msg>, first: seq<Msg>, more: seq<Msg>)
    requires Sent(r, a, ms + first, false)
    ensures Sent(r, a, ms + (first + more), false)
  {
    StoppedBefore(r, a, ms + first, more);
    Reassociate(ms, first, more);
  }

  /** A send that fails before it makes any call. */
  lemma NothingSent(r: Request, a: Account, ms: seq<Msg>, more: seq<Msg>)
    requires Sent(r, a, ms, true) && !a.granted
    ensures Sent(r, a, ms + more, false)
  {
    if a.ready {
      StoppedAt(r, a, ms, more);
    }
  }

  /** Both stacks lead through the filters of the account. */
  ghost predicate Wired(table: FilterTable, confs: map<nat, Conf>, a: Account)
    reads table
  {
    && Order(table.HeaderStack(), table.topHeader, a.order, confs)
    && Order(table.BodyStack(), table.topBody, a.order, confs)
    && a.cfs == ConfsOf(confs, a.order)
  }

  ghost predicate Idle(r: Request, table: FilterTable, footprint: set<object?>)
    reads r, r.pool, r.pool.free
  {
    r.pool.Valid() && FreeWithin(r.pool, footprint) && r !in footprint && table !in footprint
  }

  /** What a caller relies on between two sends; whatever fails, the header went down at most once. */
  twostate predicate Settled(r: Request, table: FilterTable, footprint: set<object?>, new footprint': set<object?>)
    reads r, r.pool, r.pool.free
  {
    && Idle(r, table, footprint') && footprint <= footprint' && fresh(footprint' - footprint)
    && Surplus(r) == old(Surplus(r))
  }

  /** One more call through the stack, on the account. */
  lemma SentOneMore(a: Account, ms: seq<Msg>, m: Msg, flags: seq<nat>, received: seq<Msg>)
    requires |a.flags| == |a.cfs|
    requires flags == PassFlags(a.flags, a.cfs, ms) && received == a.before + PassAll(a.flags, a.cfs, ms)
    ensures
      var (flags', out) := Pass(flags, a.cfs, m);
      && flags' == PassFlags(a.flags, a.cfs, ms + [m])
      && received + [out] == a.before + PassAll(a.flags, a.cfs, ms + [m])
  {
    PassAllConcat(a.flags, a.cfs, ms, [m]);
    PassFlagsConcat(a.flags, a.cfs, ms, [m]);
    assert [m] + [] == [m];
    PassCons(flags, a.cfs, m, []);
  }

  /** The header call a send makes: none once the header is out. */
  function HeaderCall(sent: bool, n: int, hs: seq<Kv>): seq<Msg> {
    if sent then [] else [Header(n, hs)]
  }

  function BodyCalls(headerOnly: bool, ps: seq<Piece>): seq<Msg> {
    if headerOnly || ps == [] then [] else [Body(ps)]
  }

  /** NgxResponse::send(): the header, unless it is out; false stands for the exception. */
  method SendHeader(table: FilterTable, confs: map<nat, Conf>, r: Request, ghost a: Account,
                    ghost ms: seq<Msg>) returns (ok: bool)
    requires Wired(table, confs, a) && Sent(r, a, ms, true)
    modifies r`ctx, r`headers, r`room, r`contentLength, r`headerSent, r`status, r`received, r.pool`grants
    ensures r.headerSent <==> ok
    ensures old(r.headerSent) ==> unchanged(r) && unchanged(r.pool)
    ensures Surplus(r) == old(Surplus(r))
    ensures a.granted ==> ok
    ensures Sent(r, a, ms + HeaderCall(old(r.headerSent), old(r.contentLength), old(r.headers)), ok)
    ensures r.status == if old(r.status) == 0 && !old(r.headerSent) then 200 else old(r.status)
    ensures ok && !old(r.headerSent) ==> |r.received| == |old(r.received)| + 1
    ensures !ok ==> r.received == old(r.received)
  {
    if r.headerSent {
      assert ms + [] == ms;
      return true;
    }
    if r.status == 0 {
      r.status := NGX_HTTP_OK;
    }
    ghost var m := r.HeaderMsg();
    if a.granted || a.ready {
      SentOneMore(a, ms, m, FlagsOf(r.ctx, a.order), r.received);
    }
    var rc := RunHeader(table, confs, r, table.topHeader, a.order);
    ok := !(rc == NGX_ERROR || rc > NGX_OK);
    if !ok && a.ready {
      StoppedAt(r, a, ms, [m]);
    }
  }

  /** ngx_http_output_filter: a body call at the top of the stack. */
  method Output(table: FilterTable, confs: map<nat, Conf>, r: Request, out: Link?,
                ghost s: seq<Link>, ghost a: Account, ghost ms: seq<Msg>, ghost footprint: set<object?>)
    returns (rc: int, ghost footprint': set<object?>)
    requires Wired(table, confs, a) && Sent(r, a, ms, true)
    requires Idle(r, table, footprint) && Ready(r.pool, out, s, footprint)
    modifies r`ctx, r`received, footprint
    ensures Settled(r, table, footprint, footprint')
    ensures a.granted || (a.ready && r.headerSent && !HasEof(old(Pieces(s)))) ==> rc == NGX_OK
    ensures Sent(r, a, ms + [Body(old(Pieces(s)))], rc == NGX_OK)
    ensures |r.received| == |old(r.received)| + if rc == NGX_OK then 1 else 0
  {
    ghost var m := Body(Pieces(s));
    if a.granted || a.ready {
      SentOneMore(a, ms, m, FlagsOf(r.ctx, a.order), r.received);
    }
    rc, footprint' := RunBody(table, confs, r, table.topBody, out, a.order, s, footprint);
    if rc != NGX_OK && a.ready {
      StoppedAt(r, a, ms, [m]);
    }
  }

  /** What NgxResponse::send asks of the stack for a chain that reads as ps. */
  function SendCalls(r: Request, ps: seq<Piece>): seq<Msg>
    reads r
  {
    HeaderCall(r.headerSent, r.contentLength, r.headers) + BodyCalls(r.headerOnly, ps)
  }

  /** The second half of NgxResponse::send(ngx_chain_t*): the chain, unless there is none or header_only is set. */
  method SendBody(table: FilterTable, confs: map<nat, Conf>, r: Request, out: Link?, ghost s: seq<Link>,
                  ghost a: Account, ghost ms: seq<Msg>, ghost footprint: set<object?>)
    returns (rc: int, ghost footprint': set<object?>)
    requires Wired(table, confs, a) && Sent(r, a, ms, true)
    requires Idle(r, table, footprint) && Ready(r.pool, out, s, footprint)
    modifies r`ctx, r`received, footprint
    ensures Settled(r, table, footprint, footprint')
    ensures a.granted || (a.ready && r.headerSent && !HasEof(old(Pieces(s)))) ==> rc == NGX_OK
    ensures Sent(r, a, ms + BodyCalls(r.headerOnly, old(Pieces(s))), rc == NGX_OK)
    ensures rc == NGX_OK ==> |r.received| == |old(r.received)| + if out == null || r.headerOnly then 0 else 1
  {
    if out == null || r.headerOnly {
      assert ms + [] == ms;
      return NGX_OK, footprint;
    }
    rc, footprint' := Output(table, confs, r, out, s, a, ms, footprint);
  }

  /** NgxResponse::send(ngx_chain_t*) */
  method SendChain(table: FilterTable, confs: map<nat, Conf>, r: Request, out: Link?,
                   ghost s: seq<Link>, ghost a: Account, ghost ms: seq<Msg>, ghost footprint: set<object?>)
    returns (ok: bool, rc: int, ghost footprint': set<object?>)
    requires Wired(table, confs, a) && Sent(r, a, ms, true)
    requires Idle(r, table, footprint) && Ready(r.pool, out, s, footprint)
    modifies r`ctx, r`headers, r`room, r`contentLength, r`headerSent, r`status, r`received, footprint
    ensures Settled(r, table, footprint, footprint') && (old(r.status) != 0 ==> r.status == old(r.status))
    ensures ok ==> r.headerSent
    ensures (a.granted ==> ok && rc == NGX_OK) && (a.ready && ok && !HasEof(old(Pieces(s))) ==> rc == NGX_OK)
    ensures Sent(r, a, ms + old(SendCalls(r, Pieces(s))), ok && rc == NGX_OK)
    ensures ok && rc == NGX_OK ==>
              |r.received| == |old(r.received)| + (if old(r.headerSent) then 0 else 1)
                                                + (if out == null || r.headerOnly then 0 else 1)
  {
    ghost var ps := Pieces(s);
    ghost var header, body := HeaderCall(r.headerSent, r.contentLength, r.headers), BodyCalls(r.headerOnly, ps);
    assert SendCalls(r, ps) == header + body;
    Reassociate(ms, header, body);
    ok := SendHeader(table, confs, r, a, ms);
    if !ok {
      StoppedInside(r, a, ms, header, body);
      return ok, NGX_ERROR, footprint;
    }
    PiecesAre(s, ps);
    assert Surplus(r) == old(Surplus(r));
    rc, footprint' := SendBody(table, confs, r, out, s, a, ms + header, footprint);
  }

  lemma ReadyOne(pool: Pool, l: Link, footprint: set<object?>)
    requires pool.Valid() && FreeWithin(pool, footprint) && l !in pool.free
    requires l.next == null && l.buf != null && l in footprint && l.buf in footprint
    ensures Ready(pool, l, [l], footprint) && Pieces([l]) == [l.buf.ToPiece()]
  {
  }

  /** A link from the pool carrying buf; null stands for the exception. */
  method NewNode(pool: Pool, buf: Buf, ghost footprint: set<object?>)
    returns (ch: Link?, ghost s: seq<Link>, ghost footprint': set<object?>)
    requires pool.Valid() && FreeWithin(pool, footprint) && buf in footprint
    modifies pool`chain, pool`grants, pool`free, pool.free
    ensures pool.Valid() && FreeWithin(pool, footprint') && footprint <= footprint' && fresh(footprint' - footprint)
    ensures ch != null ==> Ready(pool, ch, s, footprint') && Pieces(s) == [buf.ToPiece()]
    ensures AllTrue(old(pool.grants)) ==> ch != null && AllTrue(pool.grants)
  {
    ch := pool.Chain();
    if ch == null {
      return null, [], footprint;
    }
    ch.buf := buf;
    ghost var l: Link := ch;
    s, footprint' := [l], footprint + {l};
    ReadyOne(pool, l, footprint');
  }

  /** NgxResponse::send(ngx_buf_t*) */
  method SendBuf(table: FilterTable, confs: map<nat, Conf>, r: Request, buf: Buf, ghost a: Account,
                 ghost ms: seq<Msg>, ghost footprint: set<object?>)
    returns (ok: bool, rc: int, ghost footprint': set<object?>)
    requires Wired(table, confs, a) && Sent(r, a, ms, true) && Idle(r, table, footprint) && buf in footprint
    modifies r`ctx, r`headers, r`room, r`contentLength, r`headerSent, r`status, r`received, footprint
    ensures Settled(r, table, footprint, footprint') && (old(r.status) != 0 ==> r.status == old(r.status))
    ensures ok ==> r.headerSent
    ensures (a.granted ==> ok && rc == NGX_OK) && (a.ready && ok && !old(buf.lastBuf) ==> rc == NGX_OK)
    ensures Sent(r, a, ms + old(SendCalls(r, [buf.ToPiece()])), ok && rc == NGX_OK)
  {
    var ch;
    ghost var s, more;
    ch, s, more := NewNode(r.pool, buf, footprint);
    if ch == null {
      NothingSent(r, a, ms, SendCalls(r, [old(buf.ToPiece())]));
      return false, NGX_ERROR, more;
    }
    ok, rc, footprint' := SendChain(table, confs, r, ch, s, a, ms, more);
  }

  /** NgxResponse::send(ngx_str_t*) */
  method SendStr(table: FilterTable, confs: map<nat, Conf>, r: Request, str: seq<Byte>, ghost a: Account,
                 ghost ms: seq<Msg>, ghost footprint: set<object?>)
    returns (ok: bool, rc: int, ghost footprint': set<object?>)
    requires Wired(table, confs, a) && Sent(r, a, ms, true) && Idle(r, table, footprint)
    modifies r`ctx, r`headers, r`room, r`contentLength, r`headerSent, r`status, r`received, footprint
    ensures Settled(r, table, footprint, footprint') && (old(r.status) != 0 ==> r.status == old(r.status))
    ensures ok ==> r.headerSent
    ensures (a.granted ==> ok && rc == NGX_OK) && (a.ready && ok ==> rc == NGX_OK)
    ensures Sent(r, a, ms + old(SendCalls(r, [Piece(str, false, false)])), ok && rc == NGX_OK)
  {
    var buf := r.pool.Buffer(0);
    if buf == null {
      NothingSent(r, a, ms, SendCalls(r, [Piece(str, false, false)]));
      return false, NGX_ERROR, footprint;
    }
    buf.Range(str);
    ok, rc, footprint' := SendBuf(table, confs, r, buf, a, ms, footprint + {buf});
  }

  /** NgxResponse::send(string_ref): the bytes are first copied into the pool. */
  method SendCopy(table: FilterTable, confs: map<nat, Conf>, r: Request, str: seq<Byte>, ghost a: Account,
                  ghost ms: seq<Msg>, ghost footprint: set<object?>)
    returns (ok: bool, rc: int, ghost footprint': set<object?>)
    requires Wired(table, confs, a) && Sent(r, a, ms, true) && Idle(r, table, footprint)
    modifies r`ctx, r`headers, r`room, r`contentLength, r`headerSent, r`status, r`received, footprint
    ensures Settled(r, table, footprint, footprint') && (old(r.status) != 0 ==> r.status == old(r.status))
    ensures ok ==> r.headerSent
    ensures (a.granted ==> ok && rc == NGX_OK) && (a.ready && ok ==> rc == NGX_OK)
    ensures Sent(r, a, ms + old(SendCalls(r, [Piece(str, false, false)])), ok && rc == NGX_OK)
  {
    ok := r.pool.Palloc();
    if !ok {
      NothingSent(r, a, ms, SendCalls(r, [Piece(str, false, false)]));
      return false, NGX_ERROR, footprint;
    }
    ok, rc, footprint' := SendStr(table, confs, r, str, a, ms, footprint);
  }

  /** The end of ngx_http_send_special: a link of its own for the buffer, down the stack. */
  method OutputBuf(table: FilterTable, confs: map<nat, Conf>, r: Request, b: Buf, ghost a: Account,
                   ghost ms: seq<Msg>, ghost footprint: set<object?>)
    returns (rc: int, ghost footprint': set<object?>)
    requires Wired(table, confs, a) && Sent(r, a, ms, true) && Idle(r, table, footprint) && b in footprint
    modifies r`ctx, r`received, footprint
    ensures Settled(r, table, footprint, footprint')
    ensures a.granted ==> rc == NGX_OK
    ensures Sent(r, a, ms + [Body([old(b.ToPiece())])], rc == NGX_OK)
  {
    var out := new Link();
    out.buf := b;
    ReadyOne(r.pool, out, footprint + {out});
    rc, footprint' := Output(table, confs, r, out, [out], a, ms, footprint + {out});
  }

  /** NgxResponse::eof over ngx_http_send_special: an empty last buffer, whether or not a body may be sent. */
  method SendEof(table: FilterTable, confs: map<nat, Conf>, r: Request, ghost a: Account, ghost ms: seq<Msg>,
                 ghost footprint: set<object?>)
    returns (rc: int, ghost footprint': set<object?>)
    requires Wired(table, confs, a) && Sent(r, a, ms, true) && Idle(r, table, footprint)
    modifies r`ctx, r`received, footprint
    ensures Settled(r, table, footprint, footprint')
    ensures a.granted ==> rc == NGX_OK
    ensures Sent(r, a, ms + [Body([Piece([], r.main, !r.main)])], rc == NGX_OK)
  {
    var b := r.pool.Buffer(0);
    if b == null {
      NothingSent(r, a, ms, [Body([Piece([], r.main, !r.main)])]);
      return NGX_ERROR, footprint;
    }
    if r.main {
      b.lastBuf := true;
    } else {
      b.lastInChain := true;
    }
    rc, footprint' := OutputBuf(table, confs, r, b, a, ms, footprint + {b});
  }

  // ---------- the echo handler ----------

  const COMMA: seq<Byte> := [44]

  function ArgCalls(headerOnly: bool, args: seq<Byte>): seq<Msg> {
    BodyCalls(headerOnly, [Piece(args, false, false)]) + BodyCalls(headerOnly, [Piece(COMMA, false, false)])
  }

  /** The body calls of the handler before the end mark: the arguments and a comma when there are any,
      then the message. */
  function PartCalls(headerOnly: bool, args: seq<Byte>, msg: seq<Byte>): seq<Msg> {
    (if args == [] then [] else ArgCalls(headerOnly, args)) + BodyCalls(headerOnly, [Piece(msg, false, false)])
  }

  function EchoLength(args: seq<Byte>, msg: seq<Byte>): nat {
    |msg| + if args == [] then 0 else |args| + 1
  }

  /** The calls one run of the handler makes at the top of the stack. */
  function EchoCalls(sent: bool, main: bool, headerOnly: bool, hs: seq<Kv>, args: seq<Byte>,
                     msg: seq<Byte>): seq<Msg> {
    HeaderCall(sent, EchoLength(args, msg), hs) + PartCalls(headerOnly, args, msg) + [Body([Piece([], main, !main)])]
  }

  lemma InThreeParts<T>(header: seq<T>, p1: seq<T>, p2: seq<T>, p3: seq<T>)
    ensures (([] + (header + p1)) + ([] + p2)) + ([] + p3) == header + (p1 + p2 + p3)
    ensures (([] + (header + p1)) + ([] + p2)) + p3 == header + (p1 + p2 + p3)
    ensures ([] + (header + p1)) + (p2 + p3) == header + (p1 + p2 + p3)
  {
  }

  /** The sends of the handler, up to the end mark. */
  method SendParts(table: FilterTable, confs: map<nat, Conf>, r: Request, args: seq<Byte>, msg: seq<Byte>,
                   ghost a: Account, ghost footprint: set<object?>)
    returns (ok: bool, ghost footprint': set<object?>)
    requires Wired(table, confs, a) && Sent(r, a, [], true) && Idle(r, table, footprint)
    modifies r`ctx, r`headers, r`room, r`contentLength, r`headerSent, r`status, r`received, footprint
    ensures Settled(r, table, footprint, footprint') && (old(r.status) != 0 ==> r.status == old(r.status))
    ensures a.granted ==> ok
    ensures Sent(r, a, old(HeaderCall(r.headerSent, r.contentLength, r.headers)) + PartCalls(r.headerOnly, args, msg),
                 ok)
  {
    ghost var header := HeaderCall(r.headerSent, r.contentLength, r.headers);
    ghost var p1, p2, p3 := BodyCalls(r.headerOnly, [Piece(args, false, false)]), BodyCalls(r.headerOnly,
        [Piece(COMMA, false, false)]),
                            BodyCalls(r.headerOnly, [Piece(msg, false, false)]);
    ghost var ms := [];
    var rc;
    footprint' := footprint;
    if args != [] {
      ok, rc, footprint' := SendStr(table, confs, r, args, a, ms, footprint');
      if !ok {
        StoppedBefore(r, a, ms + (header + p1), p2 + p3);
        InThreeParts(header, p1, p2, p3);
        return;
      }
      ms := ms + (header + p1);
      ok, rc, footprint' := SendCopy(table, confs, r, COMMA, a, ms, footprint');
      if !ok {
        StoppedBefore(r, a, ms + ([] + p2), p3);
        InThreeParts(header, p1, p2, p3);
        return;
      }
      ms := ms + ([] + p2);
      InThreeParts(header, p1, p2, p3);
    } else {
      assert ms + (header + p3) == header + ([] + p3);
    }
    ok, rc, footprint' := SendStr(table, confs, r, msg, a, ms, footprint');
  }

  /** The sends and the end mark, once length and status are set. */
  method SendAll(table: FilterTable, confs: map<nat, Conf>, r: Request, args: seq<Byte>, msg: seq<Byte>,
                 ghost a: Account, ghost footprint: set<object?>)
    returns (rc: int, ghost footprint': set<object?>)
    requires Wired(table, confs, a) && Sent(r, a, [], true) && Idle(r, table, footprint)
    modifies r`ctx, r`headers, r`room, r`contentLength, r`headerSent, r`status, r`received, footprint
    ensures Settled(r, table, footprint, footprint') && (old(r.status) != 0 ==> r.status == old(r.status))
    ensures a.granted ==> rc == NGX_OK
    ensures Sent(r, a, old(HeaderCall(r.headerSent, r.contentLength, r.headers)) + PartCalls(r.headerOnly, args, msg)
                       + [Body([Piece([], r.main, !r.main)])], rc == NGX_OK)
  {
    ghost var ms := HeaderCall(r.headerSent, r.contentLength, r.headers) + PartCalls(r.headerOnly, args, msg);
    var ok;
    ok, footprint' := SendParts(table, confs, r, args, msg, a, footprint);
    if !ok {
      StoppedBefore(r, a, ms, [Body([Piece([], r.main, !r.main)])]);
      return NGX_ERROR, footprint';
    }
    rc, footprint' := SendEof(table, confs, r, a, ms, footprint');
  }

  /** The handler once the request is accepted. */
  method Respond(table: FilterTable, confs: map<nat, Conf>, r: Request, args: seq<Byte>, msg: seq<Byte>,
                 ghost a: Account, ghost footprint: set<object?>)
    returns (rc: int, ghost footprint': set<object?>)
    requires Wired(table, confs, a) && Sent(r, a, [], true) && Idle(r, table, footprint)
    modifies r`ctx, r`headers, r`room, r`contentLength, r`headerSent, r`status, r`received, footprint
    ensures Settled(r, table, footprint, footprint')
    ensures r.status == NGX_HTTP_OK && (a.granted ==> rc == NGX_OK)
    ensures Sent(r, a, EchoCalls(old(r.headerSent), r.main, r.headerOnly, old(r.headers), args, msg), rc == NGX_OK)
  {
    var len := |msg|;
    if args != [] {
      len := len + |args| + 1;
    }
    assert len == EchoLength(args, msg);
    r.contentLength := len;
    r.status := NGX_HTTP_OK;
    rc, footprint' := SendAll(table, confs, r, args, msg, a, footprint);
  }

  /** NdgEchoHandler::handler, for a request whose body was discarded with code `discarded`. */
  method Handler(table: FilterTable, confs: map<nat, Conf>, r: Request, isGet: bool, discarded: int,
                 args: seq<Byte>, msg: seq<Byte>,
                 ghost a: Account, ghost footprint: set<object?>)
    returns (rc: int, ghost footprint': set<object?>)
    requires Wired(table, confs, a) && Sent(r, a, [], true) && Idle(r, table, footprint)
    modifies r`ctx, r`headers, r`room, r`contentLength, r`headerSent, r`status, r`received, footprint
    ensures Settled(r, table, footprint, footprint')
    ensures !isGet ==> rc == 405 && unchanged(r)
    ensures isGet && discarded != NGX_OK ==> rc == discarded && unchanged(r)
    ensures isGet && discarded == NGX_OK ==>
              && r.status == 200 && (a.granted ==> rc == NGX_OK)
              && Sent(r, a, EchoCalls(old(r.headerSent), r.main, r.headerOnly, old(r.headers), args, msg), rc == NGX_OK)
  {
    if !isGet {
      return NGX_HTTP_NOT_ALLOWED, footprint;
    }
    if discarded != NGX_OK {
      return discarded, footprint;
    }
    rc, footprint' := Respond(table, confs, r, args, msg, a, footprint);
  }

  // ---------- what the client gets ----------

  function EchoBody(args: seq<Byte>, msg: seq<Byte>): seq<Byte> {
    (if args == [] then [] else args + COMMA) + msg
  }

  /** These calls carry a body of these bytes, ended on a main request and not on another. */
  predicate Carries(ms: seq<Msg>, bytes: seq<Byte>, main: bool) {
    && (forall i :: 0 <= i < |ms| ==> ms[i].Body?)
    && Flatten(Stream(ms)) == bytes
    && if main then WellFormed(Stream(ms)) else !HasEof(Stream(ms))
  }

  lemma OneMore(bytes: seq<Byte>, ms: seq<Msg>, rest: seq<Byte>, main: bool)
    requires Carries(ms, rest, main)
    ensures Carries([Body([Piece(bytes, false, false)])] + ms, bytes + rest, main)
  {
  }

  lemma OnlyEof(main: bool)
    ensures Carries([Body([Piece([], main, !main)])], [], main)
  {
    var p := Piece([], main, !main);
    StreamCons(Body([p]), []);
    assert [Body([p])] == [Body([p])] + [] && [p] + [] == [p];
    FirstEofIs([p], if main then 0 else 1);
    FlattenSnoc([], p);
    assert [] + [p] == [p];
  }

  lemma WithArgs(args: seq<Byte>, msg: seq<Byte>, m: seq<Msg>, main: bool)
    requires args != [] && Carries(m, msg, main)
    ensures Carries(ArgCalls(false, args) + m, EchoBody(args, msg), main)
  {
    var cm := [Body([Piece(COMMA, false, false)])] + m;
    OneMore(COMMA, m, msg, main);
    OneMore(args, cm, COMMA + msg, main);
    assert ArgCalls(false, args) + m == [Body([Piece(args, false, false)])] + cm;
    assert args + (COMMA + msg) == args + COMMA + msg;
  }

  lemma EchoStream(main: bool, headerOnly: bool, args: seq<Byte>, msg: seq<Byte>)
    ensures Carries(PartCalls(headerOnly, args, msg) + [Body([Piece([], main, !main)])],
                    if headerOnly then [] else EchoBody(args, msg), main)
  {
    var eof := [Body([Piece([], main, !main)])];
    OnlyEof(main);
    if headerOnly {
      assert PartCalls(headerOnly, args, msg) + eof == eof;
    } else {
      var m := [Body([Piece(msg, false, false)])] + eof;
      assert msg + [] == msg;
      OneMore(msg, eof, [], main);
      if args == [] {
        assert PartCalls(headerOnly, args, msg) + eof == m && EchoBody(args, msg) == msg;
      } else {
        WithArgs(args, msg, m, main);
        assert PartCalls(headerOnly, args, msg) + eof == ArgCalls(false, args) + m;
      }
    }
  }

  /**
   Echo end to end through fresh filters: the header goes down once, first, and
   what follows is the body and the footers. On a subrequest no buffer ends the
   response, so no footer is added, though the declared length has grown; with
   header_only the handler sends no body, but the end mark still brings out the footers.
   */
  lemma EchoDelivers(cfs: seq<Conf>, main: bool, headerOnly: bool, hs: seq<Kv>, args: seq<Byte>, msg: seq<Byte>)
    ensures
      var n := EchoLength(args, msg);
      var ms := EchoCalls(false, main, headerOnly, hs, args, msg);
      var out := PassAll(Fresh(cfs), cfs, ms);
      && |out| == |ms|
      && out[0] == Header(if n > 0 then n + |Footers(cfs)| else 0, hs + AddedHeaders(cfs))
      && Carries(out[1..], (if headerOnly then [] else EchoBody(args,
          msg)) + (if main then Footers(cfs) else []), main)
  {
    var n, rest := EchoLength(args, msg), PartCalls(headerOnly, args, msg) + [Body([Piece([], main, !main)])];
    assert EchoCalls(false, main, headerOnly, hs, args, msg) == [Header(n, hs)] + rest;
    EchoStream(main, headerOnly, args, msg);
    Delivers(cfs, n, hs, rest, if headerOnly then [] else EchoBody(args, msg), main);
  }

  lemma Delivers(cfs: seq<Conf>, n: nat, hs: seq<Kv>, rest: seq<Msg>, bytes: seq<Byte>, main: bool)
    requires Carries(rest, bytes, main)
    ensures
      var out := PassAll(Fresh(cfs), cfs, [Header(n, hs)] + rest);
      && out[0] == Header(if n > 0 then n + |Footers(cfs)| else 0, hs + AddedHeaders(cfs))
      && Carries(out[1..], bytes + (if main then Footers(cfs) else []), main)
  {
    HeaderThenBodies(cfs, n, hs, rest);
    if main {
      StackAppendsFooters(cfs, n, hs, rest);
    } else {
      HeldBack(cfs, n, hs, rest);
    }
  }

  lemma HeaderThenBodies(cfs: seq<Conf>, n: nat, hs: seq<Kv>, rest: seq<Msg>)
    requires forall i :: 0 <= i < |rest| ==> rest[i].Body?
    ensures
      var out := PassAll(Fresh(cfs), cfs, [Header(n, hs)] + rest);
      && out[0] == Header(if n > 0 then n + |Footers(cfs)| else 0, hs + AddedHeaders(cfs))
      && forall i :: 0 <= i < |out[1..]| ==> out[1..][i].Body?
  {
    FirstHeader(cfs, n, hs);
    assert ([Header(n, hs)] + rest)[0] == Header(n, hs);
  }

  lemma HeldBack(cfs: seq<Conf>, n: nat, hs: seq<Kv>, rest: seq<Msg>)
    requires !HasEof(Stream(rest))
    ensures Stream(PassAll(Fresh(cfs), cfs, [Header(n, hs)] + rest)[1..]) == Stream(rest)
  {
    var ms := [Header(n, hs)] + rest;
    assert ms[1..] == rest;
    StackHoldsFooters(Pass(Fresh(cfs), cfs, ms[0]).0, cfs, rest);
  }

  /** A request without contexts starts every filter's flag at 0. */
  lemma FreshFlags(confs: map<nat, Conf>, order: seq<nat>)
    requires forall x :: x in order ==> x in confs
    ensures FlagsOf(map[], order) == Fresh(ConfsOf(confs, order))
  {
    if order != [] {
      assert forall x :: x in order[1..] ==> x in order;
      FreshFlags(confs, order[1..]);
    }
  }

  /** One header, with the length and headers of every filter, then the body and the footers. */
  predicate Delivered(ms: seq<Msg>, cfs: seq<Conf>, main: bool, headerOnly: bool, hs: seq<Kv>, args: seq<Byte>,
                      msg: seq<Byte>) {
    var n := EchoLength(args, msg);
    && ms != [] && ms[0] == Header(if n > 0 then n + |Footers(cfs)| else 0, hs + AddedHeaders(cfs))
    && Carries(ms[1..], (if headerOnly then [] else EchoBody(args, msg)) + (if main then Footers(cfs) else []), main)
  }

  lemma PassAllPrefix(flags: seq<nat>, cfs: seq<Conf>, ms: seq<Msg>, ns: seq<Msg>)
    requires |flags| == |cfs|
    ensures [] + PassAll(flags, cfs, ms) <= PassAll(flags, cfs, ms + ns)
  {
    PassAllConcat(flags, cfs, ms, ns);
  }

  lemma PartialIsPrefix(r: Request, a: Account, ms: seq<Msg>)
    requires |a.flags| == |a.cfs| && a.before == [] && Partial(r, a, ms)
    ensures r.received <= PassAll(a.flags, a.cfs, ms)
  {
    var n: nat :| n <= |ms| && r.received == a.before + PassAll(a.flags, a.cfs, ms[..n]);
    var p, q := ms[..n], ms[n..];
    assert p + q == ms;
    PassAllPrefix(a.flags, a.cfs, p, q);
  }

  /**
   What nginx's own filters have received once Handler returns, for a fresh request:
   the header once, first, then the body and the footers, if the handler succeeds,
   which it does with memory granted; whatever is refused, a prefix of just that.
   */
  lemma HandlerDelivers(r: Request, a: Account, hs: seq<Kv>, args: seq<Byte>, msg: seq<Byte>, ok: bool)
    requires (a.granted || a.ready) && a.before == [] && a.flags == Fresh(a.cfs)
    requires Sent(r, a, EchoCalls(false, r.main, r.headerOnly, hs, args, msg), ok)
    ensures
      var full := PassAll(Fresh(a.cfs), a.cfs, EchoCalls(false, r.main, r.headerOnly, hs, args, msg));
      && Delivered(full, a.cfs, r.main, r.headerOnly, hs, args, msg)
      && r.received <= full && (ok ==> r.received == full) && (a.granted ==> ok)
  {
    var ms := EchoCalls(false, r.main, r.headerOnly, hs, args, msg);
    EchoDelivers(a.cfs, r.main, r.headerOnly, hs, args, msg);
    if ok {
      assert r.received == PassAll(a.flags, a.cfs, ms);
    } else {
      PartialIsPrefix(r, a, ms);
    }
  }

  /** The handler on a request that nothing has touched yet. */
  method EchoFresh(table: FilterTable, confs: map<nat, Conf>, r: Request, args: seq<Byte>, msg: seq<Byte>,
                   ghost order: seq<nat>, ghost footprint: set<object?>)
    returns (rc: int, ghost a: Account)
    requires Order(table.HeaderStack(), table.topHeader, order, confs)
    requires Order(table.BodyStack(), table.topBody, order, confs)
    requires Idle(r, table, footprint)
    requires !r.headerSent && r.headers == [] && r.ctx == map[] && r.received == []
    modifies r`ctx, r`headers, r`room, r`contentLength, r`headerSent, r`status, r`received, footprint
    ensures r.status == NGX_HTTP_OK && (a.granted <==> AllTrue(old(r.pool.grants)))
    ensures a.ready && a.before == [] && a.cfs == ConfsOf(confs, order) && a.flags == Fresh(a.cfs)
    ensures Sent(r, a, EchoCalls(false, r.main, r.headerOnly, [], args, msg), rc == NGX_OK)
  {
    a := Open(r, confs, order);
    FreshFlags(confs, order);
    ghost var footprint';
    rc, footprint' := Handler(table, confs, r, true, NGX_OK, args, msg, a, footprint);
  }

  /** The footers that tags are configured with, the last tag's first. */
  function FootersBy(tags: seq<nat>, confs: map<nat, Conf>): seq<Byte>
    requires forall t :: t in tags ==> t in confs
  {
    if tags == [] then [] else confs[tags[|tags| - 1]].footer + FootersBy(tags[..|tags| - 1], confs)
  }

  /** The headers that tags are configured with, likewise. */
  function HeadersBy(tags: seq<nat>, confs: map<nat, Conf>): seq<Kv>
    requires forall t :: t in tags ==> t in confs
  {
    if tags == [] then []
    else
      var hs := confs[tags[|tags| - 1]].headers;
      seq(|hs|, i requires 0 <= i < |hs| => Kv(1, hs[i].key, hs[i].value)) + HeadersBy(tags[..|tags| - 1], confs)
  }

  lemma {:induction false} ByTags(tags: seq<nat>, confs: map<nat, Conf>)
    requires forall t :: t in tags ==> t in confs
    ensures forall t :: t in Reverse(tags) ==> t in confs
    ensures Footers(ConfsOf(confs, Reverse(tags))) == FootersBy(tags, confs)
    ensures AddedHeaders(ConfsOf(confs, Reverse(tags))) == HeadersBy(tags, confs)
    decreases |tags|
  {
    ReverseMembers(tags);
    if tags != [] {
      var init, t := tags[..|tags| - 1], tags[|tags| - 1];
      assert tags == init + [t];
      ReverseSnoc(init, t);
      ByTags(init, confs);
      assert Reverse(tags)[1..] == Reverse(init);
      var hs := confs[t].headers;
      assert Listed(hs) == seq(|hs|, i requires 0 <= i < |hs| => Kv(1, hs[i].key, hs[i].value));
    }
  }

  /** The calls of one whole response: this header, then a body of these bytes, ended on a main request. */
  predicate Response(full: seq<Msg>, length: int, headers: seq<Kv>, bytes: seq<Byte>, main: bool) {
    && full != [] && full[0] == Header(length, headers)
    && (forall i :: 0 < i < |full| ==> full[i].Body?)
    && Flatten(Stream(full[1..])) == bytes
    && if main then WellFormed(Stream(full[1..])) else !HasEof(Stream(full[1..]))
  }

  lemma DeliveredBy(full: seq<Msg>, tags: seq<nat>, confs: map<nat, Conf>, main: bool, headerOnly: bool,
                    args: seq<Byte>, msg: seq<Byte>)
    requires forall t :: t in tags ==> t in confs
    requires (forall t :: t in Reverse(tags) ==> t in confs)
             && Delivered(full, ConfsOf(confs, Reverse(tags)), main, headerOnly, [], args, msg)
    ensures
      var body, tail := (if args == [] then [] else args + [44]) + msg, FootersBy(tags, confs);
      Response(full, if body == [] then 0 else |body| + |tail|, HeadersBy(tags, confs),
               (if headerOnly then [] else body) + (if main then tail else []), main)
  {
    ByTags(tags, confs);
    assert forall i :: 0 < i < |full| ==> full[i] == full[1..][i - 1];
    assert [] + AddedHeaders(ConfsOf(confs, Reverse(tags))) == HeadersBy(tags, confs);
  }

  /**
   The whole of it: footer modules with distinct tags register in turn, and a fresh
   request is echoed. With memory granted nginx's own filters receive one header, with
   the length and headers of every filter, then arguments, comma and message and the
   footers, those of the tag registered last first; whatever is refused, they receive a
   prefix of that, and all of it when the handler succeeds.
   */
  method ServeEcho(tags: seq<nat>, confs: map<nat, Conf>, answers: seq<bool>, nalloc: Positive, main: bool,
                   headerOnly: bool, args: seq<Byte>, msg: seq<Byte>)
    returns (r: Request, rc: int, ghost full: seq<Msg>)
    requires Distinct(tags) && forall t :: t in tags ==> t in confs
    ensures
      var body, tail := (if args == [] then [] else args + [44]) + msg, FootersBy(tags, confs);
      Response(full, if body == [] then 0 else |body| + |tail|, HeadersBy(tags, confs),
               (if headerOnly then [] else body) + (if main then tail else []), main)
    ensures r.received <= full && (rc == NGX_OK ==> r.received == full) && r.status == 200
    ensures AllTrue(answers) ==> rc == NGX_OK
  {
    var table := new FilterTable();
    BothTags(tags);
    ReverseMembers(tags);
    InitAll(table, Both(tags));
    var pool := new Pool(answers);
    r := new Request(pool, main, headerOnly, nalloc);
    ghost var a;
    rc, a := EchoFresh(table, confs, r, args, msg, Reverse(tags), {pool});
    HandlerDelivers(r, a, [], args, msg, rc == NGX_OK);
    full := PassAll(Fresh(a.cfs), a.cfs, EchoCalls(false, r.main, r.headerOnly, [], args, msg));
    DeliveredBy(full, tags, confs, main, headerOnly, args, msg);
  }

  /**
   The declared length of an echoed response is the length of what is delivered
   exactly in these cases: a body that may be sent on a main request, or one no
   filter has a footer for; an empty one only without footers or on a subrequest.
   */
  lemma EchoLengthHonest(cfs: seq<Conf>, main: bool, headerOnly: bool, hs: seq<Kv>, args: seq<Byte>, msg: seq<Byte>)
    ensures
      var out := PassAll(Fresh(cfs), cfs, EchoCalls(false, main, headerOnly, hs, args, msg));
      out[0].length == |Flatten(Stream(out[1..]))| <==>
      if args == [] && msg == [] then !main || forall cf :: cf in cfs ==> cf.footer == []
      else !headerOnly && (main || forall cf :: cf in cfs ==> cf.footer == [])
  {
    EchoDelivers(cfs, main, headerOnly, hs, args, msg);
    NoFooters(cfs);
    assert |EchoBody(args, msg)| == EchoLength(args, msg);
  }
}
