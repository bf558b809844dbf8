/** Client-initiated MTU exchanges (linux/att/client.go) against the server's handler. */
module MtuExchange {
  import opened Bytes
  import opened Wrappers
  import opened Profile
  import opened AttPdu
  import opened AttServer
  import opened AttCalls
  import opened GattClient

  /** What becomes of an exchange once the client has sent the request: the request is lost, the server
      handles it but the response is lost (or the wait for it given up), or the response arrives. */
  datatype Outcome = RequestLost | ResponseLost | Delivered

  /** The lengths in play; `declared` is the last MTU the server was told it may send. */
  datatype Lengths = Lengths(clientTx: int, clientRx: int, serverTx: int, serverRx: int, declared: int)

  class MtuClient {
    const server: Server
    /** The connection's MTUs, and the transmit buffer in the slot. */
    var txMTU: int
    var rxMTU: int
    var txBuf: array<Byte>
    ghost var declared: int

    ghost predicate Valid()
      reads this, server
    {
      && server.Valid() && txBuf != server.txBuf && txBuf != server.notBuf && txBuf != server.indBuf
      && DEFAULT_MTU <= txBuf.Length == txMTU <= MAX_MTU
    }

    ghost function State(): Lengths
      reads this, server
    {
      Lengths(txMTU, rxMTU, server.txBuf.Length, server.rxMTU, declared)
    }

    /** A connection starts at the default MTU in both directions. */
    constructor (server: Server)
      requires server.Valid() && server.txBuf.Length == DEFAULT_MTU
      ensures Valid() && this.server == server && State() == Initial(server.rxMTU)
      ensures fresh(txBuf)
    {
      this.server, txMTU, rxMTU, declared := server, DEFAULT_MTU, DEFAULT_MTU, DEFAULT_MTU;
      txBuf := new Byte[DEFAULT_MTU](_ => 0);
    }

    method ExchangeMTU(clientRxMTU: int, outcome: Outcome, env: Env) returns (r: Option<Result<int, ClientError>>)
      requires Valid()
      modifies this, txBuf, server, server.txBuf
      ensures Valid() && State() == After(old(State()), clientRxMTU, outcome)
      ensures r == if !(DEFAULT_MTU <= clientRxMTU <= MAX_MTU) then Some(Err(InvalidArgument))
                   else if outcome == Delivered then Some(Ok(txMTU)) else None
    {
      if clientRxMTU < DEFAULT_MTU || clientRxMTU > MAX_MTU {
        return Some(Err(InvalidArgument));
      }
      CopyInto(txBuf, 0, [EXCHANGE_MTU_REQUEST] + PutU16(clientRxMTU));
      if outcome == RequestLost {
        return None;
      }
      var req := txBuf[..3];
      assert req == [EXCHANGE_MTU_REQUEST] + PutU16(clientRxMTU) && U16At(req, 1) == clientRxMTU;
      var rsp := server.HandleRequest(req, env);
      declared := clientRxMTU;
      if outcome == ResponseLost {
        return None;
      }
      var serverRxMTU;
      match CheckedMTU(rsp) {
        case Err(e) => return Some(Err(e));
        case Ok(mtu) => serverRxMTU := mtu;
      }
      var newTx := Min(serverRxMTU, clientRxMTU);
      rxMTU := clientRxMTU;
      if txBuf.Length != newTx {
        txMTU := newTx;
        txBuf := new Byte[newTx](_ => 0);
      }
      r := Some(Ok(newTx));
    }
  }

  /** ExchangeMTU's validation of a response. */
  function CheckedMTU(rsp: seq<Byte>): Result<int, ClientError>
    requires rsp != []
  {
    if rsp[0] == ERROR_RESPONSE && |rsp| == 5 then Err(Att(rsp[4]))
    else if rsp[0] == ERROR_RESPONSE || rsp[0] != EXCHANGE_MTU_RESPONSE || |rsp| != 3 then Err(InvalidResponse)
    else if U16At(rsp, 1) < DEFAULT_MTU then Err(InvalidMTU)
    else Ok(U16At(rsp, 1))
  }

  function Initial(serverRx: int): Lengths {
    Lengths(DEFAULT_MTU, DEFAULT_MTU, DEFAULT_MTU, serverRx, DEFAULT_MTU)
  }

  /** The lengths after an exchange for m. */
  function After(s: Lengths, m: int, outcome: Outcome): Lengths {
    if m < DEFAULT_MTU || m > MAX_MTU || outcome == RequestLost then s
    else
      var told := s.(serverTx := m, declared := m);
      if outcome == ResponseLost then told else told.(clientTx := Min(s.serverRx, m), clientRx := m)
  }

  /** The lengths after a sequence of exchanges. */
  function AfterAll(s: Lengths, run: seq<(int, Outcome)>): Lengths
    decreases |run|
  {
    if run == [] then s else AfterAll(After(s, run[0].0, run[0].1), run[1..])
  }

  // ---- What every sequence of exchanges keeps ----

  /** The client sends no more than the server declared, the server no more than it was last told, and
      both stay within the stack's limits. */
  ghost predicate Agreed(s: Lengths) {
    && DEFAULT_MTU <= s.clientTx <= MAX_MTU && DEFAULT_MTU <= s.serverTx <= MAX_MTU
    && s.clientTx <= s.serverRx
    && s.clientTx <= s.clientRx <= MAX_MTU
    && s.serverTx <= s.declared
  }

  lemma {:induction false} ExchangesAgree(s: Lengths, run: seq<(int, Outcome)>)
    requires Agreed(s) && s.serverRx >= DEFAULT_MTU
    ensures Agreed(AfterAll(s, run)) && AfterAll(s, run).serverRx == s.serverRx
    decreases |run|
  {
    if run != [] {
      ExchangesAgree(After(s, run[0].0, run[0].1), run[1..]);
    }
  }

  /** Whether an exchange leaves the server sending shorter PDUs than the client is allowed: the server
      adopted m on handling the request, and the client, which never saw the response, kept more. */
  predicate Undercuts(s: Lengths, m: int, outcome: Outcome) {
    DEFAULT_MTU <= m <= MAX_MTU && outcome == ResponseLost && m < s.clientTx
  }

  /** A single exchange keeps (or restores) serverTx >= clientTx, unless it undercuts: then it fails
      whatever was the case before. */
  lemma ExchangeCovers(s: Lengths, m: int, outcome: Outcome)
    requires s.serverTx >= s.clientTx
    ensures var t := After(s, m, outcome);
            t.serverTx >= t.clientTx <==> !Undercuts(s, m, outcome)
  {
  }

  /** The last MTU the server handled, and the last one the client saw agreed, in a run. */
  function LastHandled(run: seq<(int, Outcome)>, was: int): int {
    if run == [] then was
    else
      var (m, outcome) := run[|run| - 1];
      if DEFAULT_MTU <= m <= MAX_MTU && outcome != RequestLost then m else LastHandled(run[..|run| - 1], was)
  }

  function LastCompleted(run: seq<(int, Outcome)>, was: int): int {
    if run == [] then was
    else
      var (m, outcome) := run[|run| - 1];
      if DEFAULT_MTU <= m <= MAX_MTU && outcome == Delivered then m else LastCompleted(run[..|run| - 1], was)
  }

  lemma {:induction false} AfterAllSnoc(s: Lengths, run: seq<(int, Outcome)>, m: int, outcome: Outcome)
    ensures AfterAll(s, run + [(m, outcome)]) == After(AfterAll(s, run), m, outcome)
    decreases |run|
  {
    var longer := run + [(m, outcome)];
    if run == [] {
      assert longer == [(m, outcome)] && longer[1..] == [];
    } else {
      assert longer[1..] == run[1..] + [(m, outcome)];
      AfterAllSnoc(After(s, run[0].0, run[0].1), run[1..], m, outcome);
    }
  }

  lemma LastSnoc(run: seq<(int, Outcome)>, m: int, outcome: Outcome, was: int)
    ensures var longer := run + [(m, outcome)];
            && LastHandled(longer, was) ==
               (if DEFAULT_MTU <= m <= MAX_MTU && outcome != RequestLost then m else LastHandled(run, was))
            && LastCompleted(longer, was) ==
               (if DEFAULT_MTU <= m <= MAX_MTU && outcome == Delivered then m else LastCompleted(run, was))
  {
    var longer := run + [(m, outcome)];
    assert longer[..|longer| - 1] == run && longer[|longer| - 1] == (m, outcome);
  }

  /** Over any run from a new connection, the server covers the client's transmit MTU exactly when the
      last MTU it handled reaches the one the last completed exchange agreed on. */
  lemma {:induction false} CoverageOverRuns(serverRx: int, run: seq<(int, Outcome)>)
    requires serverRx >= DEFAULT_MTU
    ensures var s := AfterAll(Initial(serverRx), run);
            && s.serverTx == LastHandled(run, DEFAULT_MTU) && s.clientRx == LastCompleted(run, DEFAULT_MTU)
            && s.clientTx == Min(serverRx, LastCompleted(run, DEFAULT_MTU)) && s.serverRx == serverRx
            && (s.serverTx >= s.clientTx
                <==> LastHandled(run, DEFAULT_MTU) >= Min(serverRx, LastCompleted(run, DEFAULT_MTU)))
    decreases |run|
  {
    hide AfterAll, LastHandled, LastCompleted;
    if run == [] {
      NoRun(serverRx);
    } else {
      var before := run[..|run| - 1];
      var m, outcome := run[|run| - 1].0, run[|run| - 1].1;
      CoverageOverRuns(serverRx, before);
      assert run == before + [(m, outcome)];
      AfterAllSnoc(Initial(serverRx), before, m, outcome);
      LastSnoc(before, m, outcome, DEFAULT_MTU);
    }
  }

  lemma NoRun(serverRx: int)
    ensures AfterAll(Initial(serverRx), []) == Initial(serverRx)
    ensures LastHandled([], DEFAULT_MTU) == LastCompleted([], DEFAULT_MTU) == DEFAULT_MTU
  {
  }

  /** An exchange for 100 that completes and then one for 23 whose response is lost: the server sends 23
      bytes at a time to a client that counts on 100, so that a long read of 60 bytes ends after 22. */
  lemma LostResponseShortensLongReads(v: seq<Byte>)
    requires |v| == 60
    ensures var s := AfterAll(Initial(MAX_MTU), [(100, Delivered), (23, ResponseLost)]);
            && s.clientTx == 100 && s.serverTx == 23
            && LongReadResult(v, s.clientTx, s.serverTx) == v[..22] != v
  {
    var run: seq<(int, Outcome)> := [(100, Delivered), (23, ResponseLost)];
    assert run[1..] == [(23, ResponseLost)] && run[1..][1..] == [];
    var s1 := After(Initial(MAX_MTU), 100, Delivered);
    assert AfterAll(Initial(MAX_MTU), run) == AfterAll(s1, run[1..]) == After(s1, 23, ResponseLost);
  }

  /** Over any run from a new connection, the server stays within what the client's connection receives
      exactly when the last MTU it handled is no more than the last completed exchange agreed on. */
  lemma ReceiveLimitOverRuns(serverRx: int, run: seq<(int, Outcome)>)
    requires serverRx >= DEFAULT_MTU
    ensures var s := AfterAll(Initial(serverRx), run);
            s.serverTx <= s.clientRx <==> LastHandled(run, DEFAULT_MTU) <= LastCompleted(run, DEFAULT_MTU)
  {
    CoverageOverRuns(serverRx, run);
  }

  /** A first exchange for 515 whose response is lost: the server may send 515 bytes to a connection that
      still ends on more than 23. */
  lemma LostResponseExceedsReceiveLimit()
    ensures var s := AfterAll(Initial(MAX_MTU), [(MAX_MTU, ResponseLost)]); s.serverTx == MAX_MTU > s.clientRx == 23
  {
    var run: seq<(int, Outcome)> := [(MAX_MTU, ResponseLost)];
    assert run[1..] == [];
    assert AfterAll(Initial(MAX_MTU), run) == After(Initial(MAX_MTU), MAX_MTU, ResponseLost);
  }

  /** After any run whose last handled exchange covers the agreed MTU, long reads return the whole value. */
  lemma CoveredLongReadsAreWhole(serverRx: int, run: seq<(int, Outcome)>, v: seq<Byte>)
    requires serverRx >= DEFAULT_MTU && LastHandled(run, DEFAULT_MTU) >= Min(serverRx, LastCompleted(run, DEFAULT_MTU))
    ensures var s := AfterAll(Initial(serverRx), run);
            s.serverTx >= 1 && LongReadResult(v, s.clientTx, s.serverTx) == v
  {
    CoverageOverRuns(serverRx, run);
    ExchangesAgree(Initial(serverRx), run);
  }
}
