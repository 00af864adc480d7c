/** The ClientHello cache of the TLS test server (test-server/tls.go). The mutex makes every
    operation atomic, so an execution of the server is a sequence of operations. */
module HelloCache {
  import Runs
  import opened Wrappers

  /** One accepted connection. */
  datatype Conn = Conn(id: nat, remoteAddr: string)

  /** What crypto/tls reports of a ClientHello; the connection may be missing. */
  datatype Hello = Hello(conn: Option<Conn>, offer: string)

  type Hellos = map<string, Hello>

  const LIMIT := 1024

  function AfterPut(hellos: Hellos, hello: Hello): Hellos {
    if hello.conn.None? then hellos
    else (if |hellos| > LIMIT then map[] else hellos)[hello.conn.value.remoteAddr := hello]
  }

  function AfterDrop(hellos: Hellos, remoteAddr: string): Hellos {
    hellos - {remoteAddr}
  }

  function Lookup(hellos: Hellos, remoteAddr: string): Option<Hello> {
    if remoteAddr in hellos then Some(hellos[remoteAddr]) else None
  }

  class Cache {
    var hellos: Hellos

    constructor ()
      ensures hellos == map[]
    {
      hellos := map[];
    }

    method Put(hello: Hello)
      modifies this
      ensures hellos == AfterPut(old(hellos), hello)
    {
      if hello.conn.None? {
        return;
      }
      if |hellos| > LIMIT {
        hellos := map[];
      }
      hellos := hellos[hello.conn.value.remoteAddr := hello];
    }

    method Get(remoteAddr: string) returns (hello: Option<Hello>)
      ensures hello == Lookup(hellos, remoteAddr)
    {
      hello := if remoteAddr in hellos then Some(hellos[remoteAddr]) else None;
    }

    method Drop(remoteAddr: string)
      modifies this
      ensures hellos == AfterDrop(old(hellos), remoteAddr)
    {
      hellos := map a | a in hellos && a != remoteAddr :: hellos[a];
    }
  }

  // -- Any sequence of operations --------------------------------------------------------

  datatype Operation = Put(hello: Hello) | Drop(remoteAddr: string)

  function Apply(hellos: Hellos, op: Operation): Hellos {
    match op
    case Put(hello) => AfterPut(hellos, hello)
    case Drop(remoteAddr) => AfterDrop(hellos, remoteAddr)
  }

  const BOUNDED := Runs.Machine(map[], Apply)

  /** The operation finds the cache over its limit and empties it. */
  predicate Resets(hellos: Hellos, op: Operation) {
    op.Put? && op.hello.conn.Some? && |hellos| > LIMIT
  }

  /** A cache without the bound. */
  function ApplyUnbounded(hellos: Hellos, op: Operation): Hellos {
    match op
    case Put(hello) => if hello.conn.None? then hellos else hellos[hello.conn.value.remoteAddr := hello]
    case Drop(remoteAddr) => AfterDrop(hellos, remoteAddr)
  }

  const UNBOUNDED := Runs.Machine(map[], ApplyUnbounded)

  lemma ApplySize(hellos: Hellos, op: Operation)
    requires |hellos| <= LIMIT + 1
    ensures |Apply(hellos, op)| <= LIMIT + 1
  {
    match op {
      case Put(hello) =>
        if hello.conn.Some? {
          PutSize(if |hellos| > LIMIT then map[] else hellos, hello.conn.value.remoteAddr, hello);
        }
      case Drop(remoteAddr) =>
        DropSize(hellos, remoteAddr);
    }
  }

  lemma PutSize(hellos: Hellos, key: string, hello: Hello)
    ensures |hellos[key := hello]| <= |hellos| + 1
  {
    var after := hellos[key := hello];
    assert after.Keys == hellos.Keys + {key};
  }

  lemma DropSize(hellos: Hellos, key: string)
    ensures |AfterDrop(hellos, key)| <= |hellos|
  {
    var after := AfterDrop(hellos, key);
    assert hellos.Keys == after.Keys + (if key in hellos then {key} else {});
  }

  /** The cache never holds more than 1025 entries. */
  lemma SizeIsBounded(ops: seq<Operation>, n: nat)
    requires n <= |ops|
    ensures |Runs.After(BOUNDED, ops, 0, n)| <= 1025
  {
    var inv := (hellos: Hellos) => |hellos| <= LIMIT + 1;
    forall hellos, op | inv(hellos) ensures inv(BOUNDED.next(hellos, op)) {
      ApplySize(hellos, op);
    }
    Runs.AllowedRunsKeep(BOUNDED, (_, _) => true, inv, ops, n);
  }

  /** At every moment the cache is the unbounded one over the operations from the last reset on;
      before any reset it is the unbounded one. */
  lemma BoundedSinceReset(ops: seq<Operation>, n: nat)
    requires n <= |ops|
    ensures var k := Runs.LastRestart(BOUNDED, Resets, ops, n);
            && Runs.After(BOUNDED, ops, 0, n) == Runs.After(UNBOUNDED, ops, k, n)
            && (k > 0 ==> k < n && |Runs.After(BOUNDED, ops, 0, k)| == 1025)
            && forall i | k < i < n :: !Runs.RestartsAt(BOUNDED, Resets, ops, i)
  {
    Runs.LastRestartIsLast(BOUNDED, Resets, ops, n);
    SizeIsBounded(ops, Runs.LastRestart(BOUNDED, Resets, ops, n));
    Runs.FreeSinceRestart(BOUNDED, Resets, ApplyUnbounded, ops, n);
  }

  /** The entry of an address: written by a put or a drop there, and by every reset. */
  function Entry(remoteAddr: string): Runs.Cell<Hellos, Operation, Hello> {
    Runs.Cell(
      (hellos: Hellos) => Lookup(hellos, remoteAddr),
      (hellos: Hellos, op: Operation) => AddressOf(op) == Some(remoteAddr) || Resets(hellos, op),
      (op: Operation) => if AddressOf(op) == Some(remoteAddr) && op.Put? then Some(op.hello) else None)
  }

  function AddressOf(op: Operation): Option<string> {
    match op
    case Put(hello) => if hello.conn.None? then None else Some(hello.conn.value.remoteAddr)
    case Drop(remoteAddr) => Some(remoteAddr)
  }

  /** A hello is found at an address if and only if it was put there and nothing that could
      change that - a put or drop at the address, or a reset - came later. */
  lemma FoundIffPutLast(ops: seq<Operation>, n: nat, remoteAddr: string, hello: Hello)
    requires n <= |ops|
    ensures Lookup(Runs.After(BOUNDED, ops, 0, n), remoteAddr) == Some(hello) <==>
            Runs.SomeWroteLast(Entry(remoteAddr), BOUNDED, ops, n, hello)
  {
    Runs.HoldsIffWroteLast(Entry(remoteAddr), BOUNDED, ops, n, hello);
  }

  // -- Connections -----------------------------------------------------------------------

  /** What happens to the server: a connection is accepted, its handshake offers a ClientHello,
      a request on it asks for the report, its socket goes away, and - at that moment or any time
      later - the state hook drops its address. */
  datatype Step =
    | Open(conn: Conn)
    | Greet(conn: Conn, offer: string)
    | Ask(conn: Conn)
    | Close(conn: Conn)
    | DropHook(conn: Conn)

  datatype Server = Server(accepted: set<Conn>, live: set<Conn>, greeted: set<Conn>, hellos: Hellos)

  function Next(s: Server, step: Step): Server {
    match step
    case Open(c) => s.(accepted := s.accepted + {c}, live := s.live + {c})
    case Greet(c, offer) => s.(greeted := s.greeted + {c}, hellos := AfterPut(s.hellos, Hello(Some(c), offer)))
    case Ask(_) => s
    case Close(c) => s.(live := s.live - {c})
    case DropHook(c) => s.(hellos := AfterDrop(s.hellos, c.remoteAddr))
  }

  const SERVER := Runs.Machine(Server({}, {}, {}, map[]), Next)

  function After(steps: seq<Step>): Server {
    Runs.After(SERVER, steps, 0, |steps|)
  }

  /** Connections are new when they are accepted, and only an accepted one greets. Everything else
      may come at any time: greetings and drops after the socket has gone, drops repeated or never. */
  predicate Orderly(s: Server, step: Step) {
    match step
    case Open(c) => c !in s.accepted
    case Greet(c, _) => c in s.accepted
    case _ => true
  }

  /** A greeting does not reach the cache while another connection that has greeted is live at the
      same remote address. */
  predicate Clear(s: Server, step: Step) {
    step.Greet? ==>
      forall d | d in s.live && d in s.greeted && d != step.conn :: d.remoteAddr != step.conn.remoteAddr
  }

  /** The offer a request's report carries, and whose it is. */
  function Report(s: Server, conn: Conn): Option<Hello> {
    Lookup(s.hellos, conn.remoteAddr)
  }

  predicate OwnOrNone(s: Server, conn: Conn) {
    Report(s, conn).Some? ==> Report(s, conn).value.conn == Some(conn)
  }

  /** Whoever may ask for a report would get its own hello or none. */
  predicate AllOwn(s: Server) {
    forall c | c in s.live && c in s.greeted :: OwnOrNone(s, c)
  }

  predicate Known(s: Server) {
    s.live <= s.accepted && s.greeted <= s.accepted
  }

  lemma StepKeepsOwn(s: Server, step: Step)
    requires Known(s) && AllOwn(s) && Orderly(s, step) && Clear(s, step)
    ensures Known(Next(s, step)) && AllOwn(Next(s, step))
  {
    var t := Next(s, step);
    forall c | c in t.live && c in t.greeted ensures OwnOrNone(t, c) {
      ConnStaysOwn(s, step, c);
    }
  }

  lemma ConnStaysOwn(s: Server, step: Step, c: Conn)
    requires Known(s) && AllOwn(s) && Orderly(s, step) && Clear(s, step)
    requires c in Next(s, step).live && c in Next(s, step).greeted
    ensures OwnOrNone(Next(s, step), c)
  {
    match step {
      case Greet(d, _) =>
        if c != d {
          assert c.remoteAddr != d.remoteAddr;
          assert OwnOrNone(s, c);
        }
      case Open(d) =>
        assert c != d;
        assert OwnOrNone(s, c);
      case _ =>
        assert OwnOrNone(s, c);
    }
  }

  /** A greeting that is not clear makes the other connection's report foreign at once. */
  lemma UnclearStepIsForeign(s: Server, step: Step)
    requires !Clear(s, step)
    ensures !AllOwn(Next(s, step))
  {
    var d :| d in s.live && d in s.greeted && d != step.conn && d.remoteAddr == step.conn.remoteAddr;
    assert !OwnOrNone(Next(s, step), d);
  }

  ghost predicate AlwaysOwn(steps: seq<Step>) {
    Runs.Always(SERVER, AllOwn, steps, |steps|)
  }

  /** In every interleaving: requests report their own connection's hello or none, at every moment
      and however late the drops of earlier connections arrive, if and only if every greeting is
      clear. */
  lemma RequestsReportTheirOwn(steps: seq<Step>)
    requires Runs.AllAllowed(SERVER, Orderly, steps, |steps|)
    ensures AlwaysOwn(steps) <==> Runs.AllAllowed(SERVER, Clear, steps, |steps|)
  {
    if Runs.AllAllowed(SERVER, Clear, steps, |steps|) {
      forall n | 0 <= n <= |steps| ensures AllOwn(Runs.After(SERVER, steps, 0, n)) {
        ClearRunsReportOwn(steps, n);
      }
    }
    if AlwaysOwn(steps) {
      forall i | 0 <= i < |steps| ensures Clear(Runs.After(SERVER, steps, 0, i), steps[i]) {
        assert AllOwn(Runs.After(SERVER, steps, 0, i + 1));
        if !Clear(Runs.After(SERVER, steps, 0, i), steps[i]) {
          UnclearStepIsForeign(Runs.After(SERVER, steps, 0, i), steps[i]);
        }
      }
    }
  }

  lemma ClearRunsReportOwn(steps: seq<Step>, n: nat)
    requires n <= |steps|
    requires Runs.AllAllowed(SERVER, Orderly, steps, |steps|) && Runs.AllAllowed(SERVER, Clear, steps, |steps|)
    ensures AllOwn(Runs.After(SERVER, steps, 0, n))
  {
    var allowed := (s: Server, step: Step) => Orderly(s, step) && Clear(s, step);
    var inv := (s: Server) => Known(s) && AllOwn(s);
    forall s, step | inv(s) && allowed(s, step) ensures inv(SERVER.next(s, step)) {
      StepKeepsOwn(s, step);
    }
    Runs.AllowedRunsKeep(SERVER, allowed, inv, steps, n);
  }

  predicate OnePerAddress(conns: set<Conn>) {
    forall c, d | c in conns && d in conns && c != d :: c.remoteAddr != d.remoteAddr
  }

  /** Two habits together are enough: no two live connections ever share a remote address, and no
      greeting arrives after its socket has gone. */
  lemma DistinctAddressesSuffice(steps: seq<Step>)
    requires Runs.AllAllowed(SERVER, Orderly, steps, |steps|)
    requires forall n | 0 <= n <= |steps| :: OnePerAddress(Runs.After(SERVER, steps, 0, n).live)
    requires forall i | 0 <= i < |steps| && steps[i].Greet? :: steps[i].conn in Runs.After(SERVER, steps, 0, i).live
    ensures AlwaysOwn(steps)
  {
    forall i | 0 <= i < |steps| ensures Clear(Runs.After(SERVER, steps, 0, i), steps[i]) {
      assert OnePerAddress(Runs.After(SERVER, steps, 0, i).live);
    }
    RequestsReportTheirOwn(steps);
  }

  /** The first habit is needed. Several listeners share the cache, and a client may use one local
      port towards two of them: the earlier connection then reports the later hello. */
  lemma SharedAddressReportsForeign(a: Conn, b: Conn, offer: string)
    requires a != b && a.remoteAddr == b.remoteAddr
    ensures var steps := [Open(a), Greet(a, offer), Open(b), Greet(b, offer)];
            && Runs.AllAllowed(SERVER, Orderly, steps, 4)
            && a in After(steps).live && a in After(steps).greeted && !OwnOrNone(After(steps), a)
  {
    var steps := [Open(a), Greet(a, offer), Open(b), Greet(b, offer)];
    assert Runs.After(SERVER, steps, 0, 0) == SERVER.start;
    assert Runs.After(SERVER, steps, 0, 1) == Next(SERVER.start, Open(a));
    assert Runs.After(SERVER, steps, 0, 2) == Next(Runs.After(SERVER, steps, 0, 1), Greet(a, offer));
    assert Runs.After(SERVER, steps, 0, 3) == Next(Runs.After(SERVER, steps, 0, 2), Open(b));
  }

  /** So is the second: a greeting that arrives after its socket has gone, like a late drop, can
      overtake the connection that has the address by then. No two live connections share one. */
  lemma LateGreetingReportsForeign(a: Conn, b: Conn, offer: string)
    requires a != b && a.remoteAddr == b.remoteAddr
    ensures var steps := [Open(a), Close(a), Open(b), Greet(b, offer), Greet(a, offer)];
            && Runs.AllAllowed(SERVER, Orderly, steps, 5)
            && (forall n | 0 <= n <= 5 :: OnePerAddress(Runs.After(SERVER, steps, 0, n).live))
            && b in After(steps).live && b in After(steps).greeted && !OwnOrNone(After(steps), b)
  {
    var steps := [Open(a), Close(a), Open(b), Greet(b, offer), Greet(a, offer)];
    LateGreetingRun(a, b, offer, steps);
    LateGreetingIsOrderly(a, b, offer, steps);
    LateGreetingKeepsAddresses(a, b, offer, steps);
  }

  lemma LateGreetingIsOrderly(a: Conn, b: Conn, offer: string, steps: seq<Step>)
    requires a != b && a.remoteAddr == b.remoteAddr
    requires steps == [Open(a), Close(a), Open(b), Greet(b, offer), Greet(a, offer)]
    ensures Runs.AllAllowed(SERVER, Orderly, steps, 5)
  {
    LateGreetingRun(a, b, offer, steps);
  }

  lemma LateGreetingKeepsAddresses(a: Conn, b: Conn, offer: string, steps: seq<Step>)
    requires a.remoteAddr == b.remoteAddr
    requires steps == [Open(a), Close(a), Open(b), Greet(b, offer), Greet(a, offer)]
    ensures forall n | 0 <= n <= 5 :: OnePerAddress(Runs.After(SERVER, steps, 0, n).live)
  {
    LateGreetingRun(a, b, offer, steps);
    forall n | 0 <= n <= 5 ensures OnePerAddress(Runs.After(SERVER, steps, 0, n).live) {
      assert Runs.After(SERVER, steps, 0, n).live in {{}, {a}, {b}};
    }
  }

  lemma LateGreetingRun(a: Conn, b: Conn, offer: string, steps: seq<Step>)
    requires a.remoteAddr == b.remoteAddr && steps == [Open(a), Close(a), Open(b), Greet(b, offer), Greet(a, offer)]
    ensures Runs.After(SERVER, steps, 0, 0) == SERVER.start
    ensures Runs.After(SERVER, steps, 0, 1) == Server({a}, {a}, {}, map[])
    ensures Runs.After(SERVER, steps, 0, 2) == Server({a}, {}, {}, map[])
    ensures Runs.After(SERVER, steps, 0, 3) == Server({a, b}, {b}, {}, map[])
    ensures Runs.After(SERVER, steps, 0, 4) == Server({a, b}, {b}, {b}, map[b.remoteAddr := Hello(Some(b), offer)])
    ensures Runs.After(SERVER, steps, 0, 5) == Server({a, b}, {b}, {a, b}, map[b.remoteAddr := Hello(Some(a), offer)])
  {
    LateGreetingOpens(a, b, offer, steps);
    var open := Server({a, b}, {b}, {}, map[]);
    var greeted := map[b.remoteAddr := Hello(Some(b), offer)];
    var late := map[b.remoteAddr := Hello(Some(a), offer)];
    StepTo(steps, 3, open, Server({a, b}, {b}, {b}, greeted));
    StepTo(steps, 4, Server({a, b}, {b}, {b}, greeted), Server({a, b}, {b}, {a, b}, late));
  }

  lemma LateGreetingOpens(a: Conn, b: Conn, offer: string, steps: seq<Step>)
    requires steps == [Open(a), Close(a), Open(b), Greet(b, offer), Greet(a, offer)]
    ensures Runs.After(SERVER, steps, 0, 0) == SERVER.start
    ensures Runs.After(SERVER, steps, 0, 1) == Server({a}, {a}, {}, map[])
    ensures Runs.After(SERVER, steps, 0, 2) == Server({a}, {}, {}, map[])
    ensures Runs.After(SERVER, steps, 0, 3) == Server({a, b}, {b}, {}, map[])
  {
    StepTo(steps, 0, SERVER.start, Server({a}, {a}, {}, map[]));
    StepTo(steps, 1, Server({a}, {a}, {}, map[]), Server({a}, {}, {}, map[]));
    StepTo(steps, 2, Server({a}, {}, {}, map[]), Server({a, b}, {b}, {}, map[]));
  }

  lemma StepTo(steps: seq<Step>, i: nat, s: Server, t: Server)
    requires i < |steps| && Runs.After(SERVER, steps, 0, i) == s && Next(s, steps[i]) == t
    ensures Runs.After(SERVER, steps, 0, i + 1) == t
  {
  }

  // -- Entries and live connections ------------------------------------------------------

  /** Every entry stands at the address of the connection it came from. */
  predicate Filed(hellos: Hellos) {
    forall a | a in hellos :: hellos[a].conn.Some? && hellos[a].conn.value.remoteAddr == a
  }

  /** And that connection is live. */
  predicate OwnersLive(s: Server) {
    Filed(s.hellos) && forall a | a in s.hellos :: OwnerOf(s.hellos[a]) in s.live
  }

  function OwnerOf(hello: Hello): Conn
    requires hello.conn.Some?
  {
    hello.conn.value
  }

  /** There is then at most one entry per live connection. */
  lemma {:induction false} OwnersBoundEntries(hellos: Hellos, live: set<Conn>)
    requires Filed(hellos) && forall a | a in hellos :: OwnerOf(hellos[a]) in live
    ensures |hellos| <= |live|
    decreases |hellos|
  {
    if hellos != map[] {
      var a :| a in hellos;
      var owner := OwnerOf(hellos[a]);
      var fewer := hellos - {a};
      assert fewer.Keys == hellos.Keys - {a};
      OwnersBoundEntries(fewer, live - {owner});
    }
  }

  /** Greetings come from live connections, and a connection goes only when its hello is gone. */
  predicate Tidy(s: Server, step: Step) {
    match step
    case Greet(c, _) => c in s.live
    case Close(c) => Report(s, c).Some? ==> Report(s, c).value.conn != Some(c)
    case _ => true
  }

  lemma TidyKeepsOwnersLive(s: Server, step: Step)
    requires OwnersLive(s)
    ensures OwnersLive(Next(s, step)) <==> Tidy(s, step)
  {
    var t := Next(s, step);
    match step {
      case Greet(c, offer) =>
        assert c.remoteAddr in t.hellos && t.hellos[c.remoteAddr] == Hello(Some(c), offer);
      case Close(c) =>
        if !Tidy(s, step) {
          assert c.remoteAddr in t.hellos && OwnerOf(t.hellos[c.remoteAddr]) !in t.live;
        }
      case _ =>
    }
  }

  /** The cache holds live connections' hellos alone, at every moment, if and only if every
      greeting comes from a live connection and no connection goes before its hello does. */
  lemma OwnersLiveIffTidy(steps: seq<Step>)
    ensures Runs.Always(SERVER, OwnersLive, steps, |steps|) <==> Runs.AllAllowed(SERVER, Tidy, steps, |steps|)
  {
    forall s, step | OwnersLive(s) ensures OwnersLive(SERVER.next(s, step)) <==> Tidy(s, step) {
      TidyKeepsOwnersLive(s, step);
    }
    Runs.AlwaysIffAllowed(SERVER, Tidy, OwnersLive, steps, |steps|);
  }

  /** A drop that is merely late leaves an entry with no live connection at all. */
  lemma EntryOutlivesConnection(a: Conn, offer: string)
    ensures var s := After([Open(a), Greet(a, offer), Close(a)]);
            |s.hellos| == 1 && s.live == {}
  {
    var steps := [Open(a), Greet(a, offer), Close(a)];
    assert Runs.After(SERVER, steps, 0, 0) == SERVER.start;
    assert Runs.After(SERVER, steps, 0, 1) == Next(SERVER.start, Open(a));
    assert Runs.After(SERVER, steps, 0, 2) == Next(Runs.After(SERVER, steps, 0, 1), Greet(a, offer));
    assert After(steps).hellos == map[a.remoteAddr := Hello(Some(a), offer)];
  }

  // -- When a report is somebody else's --------------------------------------------------

  /** What a request on a connection at the address would report, as a cell of the whole server. */
  function Reported(remoteAddr: string): Runs.Cell<Server, Step, Hello> {
    Runs.Cell(
      (s: Server) => Lookup(s.hellos, remoteAddr),
      (s: Server, step: Step) => match step
        case Greet(c, _) => c.remoteAddr == remoteAddr || |s.hellos| > LIMIT
        case DropHook(c) => c.remoteAddr == remoteAddr
        case _ => false,
      (step: Step) => if step.Greet? && step.conn.remoteAddr == remoteAddr
        then Some(Hello(Some(step.conn), step.offer)) else None)
  }

  /** With no assumption on the run at all: a report is another connection's if and only if the
      last step to write the address was the greeting of another connection. */
  lemma ForeignIffGreetedLastByAnother(steps: seq<Step>, conn: Conn)
    ensures !OwnOrNone(After(steps), conn) <==>
            exists other, offer :: other != conn
              && Runs.SomeWroteLast(Reported(conn.remoteAddr), SERVER, steps, |steps|, Hello(Some(other), offer))
  {
    var cell, n := Reported(conn.remoteAddr), |steps|;
    var report := Report(After(steps), conn);
    if report.Some? {
      Runs.HoldsIffWroteLast(cell, SERVER, steps, n, report.value);
      var i :| 0 <= i < n && Runs.WroteLast(cell, SERVER, steps, n, i, report.value);
      assert report.value == Hello(Some(steps[i].conn), steps[i].offer);
    }
    forall other, offer | Runs.SomeWroteLast(cell, SERVER, steps, n, Hello(Some(other), offer))
      ensures report == Some(Hello(Some(other), offer))
    {
      Runs.HoldsIffWroteLast(cell, SERVER, steps, n, Hello(Some(other), offer));
    }
  }
}
