/** GRANT and REVOKE statements of several sessions at once. The service takes the catalog's mutex anew for the
    admin check, for the database check, for each privilege it checks and for the change, so each of these is a
    step of its own, and other statements may come in between. */
module GrantInterleaving {
  import opened TextCase
  import opened PrivilegeCatalog
  import opened GrantService

  type Id = nat

  /** A statement under way: whether its database has been found and how many privileges have been checked. */
  datatype Pending = Pending(req: Request, located: bool, vouched: nat)

  datatype Server = Server(catalog: Catalog, pending: map<Id, Pending>)

  datatype Step =
    | Open(id: Id, req: Request)
    | Locate(id: Id, st: Storage)
    | Vouch(id: Id)
    | Change(id: Id)
    | Refuse(id: Id)
    | Other(ev: Event)

  ghost predicate Wellformed(req: Request) {
    var g := BuildGrant(req);
    req.directionFits && g.privileges != [] && forall p | p in g.privileges :: ValidPrivilege(p)
  }

  ghost predicate Found(c: Catalog, st: Storage, g: Grant) {
    && (g.scope != "GLOBAL" ==> g.database in c.databases && st.isOpen(g.database))
    && (g.scope == "TABLE" ==> st.hasTable(g.database, g.table))
  }

  ghost predicate Vouches(c: Catalog, session: string, g: Grant, k: nat) {
    k < |g.privileges| && g.privileges[k] != "ALL" && Allowed(c, session, g.privileges[k], g.database, g.table)
  }

  /** Every check of a statement is passed in the catalog of that moment; a statement may be refused at any time.
      Root's own GRANTs are not steps of these runs. */
  ghost predicate Enabled(s: Server, step: Step) {
    match step
    case Open(id, req) =>
      && id !in s.pending && (req.isGrant ==> req.session != "root")
      && CanAdmin(s.catalog, req.session, "GRANT") && Wellformed(req)
    case Locate(id, st) =>
      id in s.pending && !s.pending[id].located && Found(s.catalog, st, BuildGrant(s.pending[id].req))
    case Vouch(id) =>
      && id in s.pending && s.pending[id].located && s.pending[id].req.isGrant
      && Vouches(s.catalog, s.pending[id].req.session, BuildGrant(s.pending[id].req), s.pending[id].vouched)
    case Change(id) =>
      && id in s.pending && s.pending[id].located
      && (s.pending[id].req.isGrant ==> s.pending[id].vouched == |s.pending[id].req.privileges|)
    case Refuse(id) => id in s.pending
    case Other(ev) => !ev.Privileges?
  }

  ghost function Changed(c: Catalog, req: Request): Catalog {
    if !req.isGrant then WithoutGrant(c, BuildGrant(req))
    else if HasUser(c, req.username) then WithGrant(c, BuildGrant(req))
    else c
  }

  ghost function Apply(s: Server, step: Step): Server
    requires Enabled(s, step)
  {
    match step
    case Open(id, req) => s.(pending := s.pending[id := Pending(req, false, 0)])
    case Locate(id, _) => s.(pending := s.pending[id := s.pending[id].(located := true)])
    case Vouch(id) => s.(pending := s.pending[id := s.pending[id].(vouched := s.pending[id].vouched + 1)])
    case Change(id) => Server(Changed(s.catalog, s.pending[id].req), s.pending - {id})
    case Refuse(id) => s.(pending := s.pending - {id})
    case Other(ev) => s.(catalog := Next(s.catalog, ev))
  }

  ghost predicate Legal(s: Server, steps: seq<Step>)
    decreases |steps|
  {
    steps == [] || (Enabled(s, steps[0]) && Legal(Apply(s, steps[0]), steps[1..]))
  }

  ghost function Run(s: Server, steps: seq<Step>): Server
    requires Legal(s, steps)
    decreases |steps|
  {
    if steps == [] then s else Run(Apply(s, steps[0]), steps[1..])
  }

  // ---------------------------------------------------------------- no amplification beyond the start

  /** What a pending GRANT has been checked for was reachable at the start, wherever the grant will apply. */
  ghost predicate Backed(start: Catalog, pend: Pending, p: string, database: string, table: string) {
    var g := BuildGrant(pend.req);
    && pend.vouched <= |g.privileges|
    && (pend.req.isGrant ==> g.privileges != [])
    && forall k | 0 <= k < pend.vouched ::
         g.privileges[k] != "ALL" &&
         (g.privileges[k] == ToUpper(p) && Covers(g, database, table) ==> Reachable(start, p, database, table))
  }

  ghost predicate Bounded(start: Catalog, s: Server, p: string, database: string, table: string) {
    && Inv(s.catalog)
    && (Reachable(s.catalog, p, database, table) ==> Reachable(start, p, database, table))
    && (forall id | id in s.pending :: s.pending[id].req.isGrant ==> s.pending[id].req.session != "root")
    && (forall id | id in s.pending :: Backed(start, s.pending[id], p, database, table))
  }

  lemma VouchReaches(c: Catalog, session: string, g: Grant, k: nat, p: string, database: string, table: string)
    requires Inv(c) && session != "root" && WellScoped(g) && Vouches(c, session, g, k)
    requires ToUpper(p) != "CONNECT" && g.privileges[k] == ToUpper(p) && Covers(g, database, table)
    ensures Reachable(c, p, database, table)
  {
    UpperTwice(p);
    IssuerCovers(c, session, g, g.privileges[k], database, table);
    assert Allowed(c, session, p, database, table);
  }

  lemma OneMoreBacked(start: Catalog, c: Catalog, pend: Pending, p: string, database: string, table: string)
    requires Inv(c) && pend.req.session != "root" && ToUpper(p) != "CONNECT"
    requires Backed(start, pend, p, database, table) && Vouches(c, pend.req.session, BuildGrant(pend.req), pend.vouched)
    requires Reachable(c, p, database, table) ==> Reachable(start, p, database, table)
    ensures Backed(start, pend.(vouched := pend.vouched + 1), p, database, table)
  {
    var g, k := BuildGrant(pend.req), pend.vouched;
    assert WellScoped(g) by { BuiltIsNormal(pend.req); }
    if g.privileges[k] == ToUpper(p) && Covers(g, database, table) {
      VouchReaches(c, pend.req.session, g, k, p, database, table);
    }
  }

  lemma VouchBacked(start: Catalog, s: Server, id: Id, p: string, database: string, table: string)
    requires Bounded(start, s, p, database, table) && Enabled(s, Vouch(id)) && ToUpper(p) != "CONNECT"
    ensures Backed(start, Apply(s, Vouch(id)).pending[id], p, database, table)
  {
    OneMoreBacked(start, s.catalog, s.pending[id], p, database, table);
  }

  lemma RevokeBounded(c: Catalog, req: Request, p: string, database: string, table: string)
    requires Inv(c) && !req.isGrant
    ensures Inv(Changed(c, req))
    ensures Reachable(Changed(c, req), p, database, table) ==> Reachable(c, p, database, table)
  {
    RevokeKeeps(c, BuildGrant(req));
    if u :| u != "root" && Allowed(Changed(c, req), u, p, database, table) {
      RevokeOnlyShrinks(c, BuildGrant(req), u, p, database, table);
    }
  }

  lemma GrantBounded(start: Catalog, c: Catalog, pend: Pending, p: string, database: string, table: string)
    requires Inv(c) && pend.req.isGrant && Backed(start, pend, p, database, table) && ToUpper(p) != "CONNECT"
    requires pend.vouched == |pend.req.privileges|
    requires Reachable(c, p, database, table) ==> Reachable(start, p, database, table)
    ensures Inv(Changed(c, pend.req))
    ensures Reachable(Changed(c, pend.req), p, database, table) ==> Reachable(start, p, database, table)
  {
    var g := BuildGrant(pend.req);
    BuiltIsNormal(pend.req);
    if HasUser(c, pend.req.username) {
      GrantKeeps(c, g);
      if u :| u != "root" && Allowed(WithGrant(c, g), u, p, database, table) {
        GrantMeans(c, g, u, p, database, table);
      }
    }
  }

  lemma ChangeBounded(start: Catalog, s: Server, id: Id, p: string, database: string, table: string)
    requires Bounded(start, s, p, database, table) && Enabled(s, Change(id)) && ToUpper(p) != "CONNECT"
    ensures var c := Changed(s.catalog, s.pending[id].req);
            Inv(c) && (Reachable(c, p, database, table) ==> Reachable(start, p, database, table))
  {
    var pend := s.pending[id];
    if pend.req.isGrant {
      GrantBounded(start, s.catalog, pend, p, database, table);
    } else {
      RevokeBounded(s.catalog, pend.req, p, database, table);
    }
  }

  lemma OtherBounded(start: Catalog, s: Server, ev: Event, p: string, database: string, table: string)
    requires Bounded(start, s, p, database, table) && Enabled(s, Other(ev)) && ToUpper(p) != "CONNECT"
    ensures Bounded(start, Apply(s, Other(ev)), p, database, table)
  {
    NextKeeps(s.catalog, ev);
    if Reachable(Next(s.catalog, ev), p, database, table) { NextDoesNotAmplify(s.catalog, ev, p, database, table); }
  }

  lemma StepBounded(start: Catalog, s: Server, step: Step, p: string, database: string, table: string)
    requires Bounded(start, s, p, database, table) && Enabled(s, step) && ToUpper(p) != "CONNECT"
    ensures Bounded(start, Apply(s, step), p, database, table)
  {
    match step
    case Vouch(id) => VouchBacked(start, s, id, p, database, table);
    case Change(id) => ChangeBounded(start, s, id, p, database, table);
    case Other(ev) => OtherBounded(start, s, ev, p, database, table);
    case Open(id, req) => assert Backed(start, Pending(req, false, 0), p, database, table);
    case Locate(id, _) => assert Backed(start, s.pending[id].(located := true), p, database, table);
    case Refuse(_) =>
  }

  lemma {:induction false} RunBounded(start: Catalog, s: Server, steps: seq<Step>,
                                        p: string, database: string, table: string)
    requires Bounded(start, s, p, database, table) && Legal(s, steps) && ToUpper(p) != "CONNECT"
    ensures Bounded(start, Run(s, steps), p, database, table)
    decreases |steps|
  {
    if steps == [] {
    } else {
      StepBounded(start, s, steps[0], p, database, table);
      RunBounded(start, Apply(s, steps[0]), steps[1..], p, database, table);
    }
  }

  /** However the statements of any number of sessions interleave, users other than root can do at the end only
      what some user other than root could do at the start, for every privilege but CONNECT. */
  lemma NoAmplificationInterleaved(c: Catalog, steps: seq<Step>, p: string, database: string, table: string)
    requires Inv(c) && Legal(Server(c, map[]), steps) && ToUpper(p) != "CONNECT"
    ensures var end := Run(Server(c, map[]), steps).catalog;
            Inv(end) && (Reachable(end, p, database, table) ==> Reachable(c, p, database, table))
  {
    RunBounded(c, Server(c, map[]), steps, p, database, table);
  }

  // ---------------------------------------------------------------- when something comes back

  /** Pending statements are well formed, none by root is a GRANT, and what has been checked is not ALL. */
  ghost predicate Proper(pend: Pending) {
    var g := BuildGrant(pend.req);
    && Wellformed(pend.req) && (pend.req.isGrant ==> pend.req.session != "root")
    && pend.vouched <= |g.privileges| && forall k | 0 <= k < pend.vouched :: g.privileges[k] != "ALL"
  }

  ghost predicate AllProper(s: Server) {
    forall id | id in s.pending :: Proper(s.pending[id])
  }

  lemma StepProper(s: Server, step: Step)
    requires AllProper(s) && Enabled(s, step)
    ensures AllProper(Apply(s, step))
  {
    match step
    case Open(id, req) => assert Proper(Pending(req, false, 0));
    case Locate(id, _) => assert Proper(s.pending[id].(located := true));
    case Vouch(id) => assert Proper(s.pending[id].(vouched := s.pending[id].vouched + 1));
    case _ =>
  }

  lemma {:induction false} RunProper(s: Server, steps: seq<Step>)
    requires AllProper(s) && Legal(s, steps)
    ensures AllProper(Run(s, steps))
    decreases |steps|
  {
    if steps == [] {
    } else {
      StepProper(s, steps[0]);
      RunProper(Apply(s, steps[0]), steps[1..]);
    }
  }

  /** Nothing outside CONNECT has come into the reach of users other than root. */
  ghost predicate NothingNew(c: Catalog, c': Catalog) {
    forall p, database, table | ToUpper(p) != "CONNECT" && Reachable(c', p, database, table) ::
      Reachable(c, p, database, table)
  }

  /** The GRANT has a receiver other than root, and some privilege it passes on is out of everybody's reach by now. */
  ghost predicate Revives(c: Catalog, req: Request) {
    var g := BuildGrant(req);
    && req.isGrant && HasUser(c, req.username) && req.username != "root"
    && exists q :: q in g.privileges && !Reachable(c, q, g.database, g.table)
  }

  /** What is reachable on the resource of the grant is reachable wherever the grant applies. */
  lemma GrantAddsNothing(c: Catalog, req: Request, p: string, database: string, table: string)
    requires Inv(c) && req.isGrant && "ALL" !in BuildGrant(req).privileges && !Revives(c, req)
    requires ToUpper(p) != "CONNECT" && Reachable(Changed(c, req), p, database, table)
    ensures Reachable(c, p, database, table)
  {
    var g := BuildGrant(req);
    BuiltIsNormal(req);
    var u :| u != "root" && Allowed(Changed(c, req), u, p, database, table);
    if HasUser(c, req.username) && !Allowed(c, u, p, database, table) {
      GrantMeans(c, g, u, p, database, table);
      var upper := ToUpper(p);
      assert Reachable(c, upper, g.database, g.table);
      var v :| v != "root" && Allowed(c, v, upper, g.database, g.table);
      UpperTwice(p);
      IssuerCovers(c, v, g, upper, database, table);
      assert Allowed(c, v, p, database, table);
    }
  }

  lemma RevivesSomething(c: Catalog, req: Request)
    requires Wellformed(req) && Revives(c, req)
    ensures !NothingNew(c, Changed(c, req))
  {
    var g := BuildGrant(req);
    BuiltIsNormal(req);
    var q :| q in g.privileges && !Reachable(c, q, g.database, g.table);
    assert ToUpper(q) == q by {
      var k :| 0 <= k < |g.privileges| && g.privileges[k] == q;
      UpperTwice(req.privileges[k]);
    }
    assert q != "CONNECT" by { assert !ValidPrivilege("CONNECT"); }
    GrantMeans(c, g, req.username, q, g.database, g.table);
    assert Allowed(Changed(c, req), req.username, q, g.database, g.table);
  }

  lemma ChangeRevivesExactly(c: Catalog, pend: Pending)
    requires Inv(c) && Proper(pend) && (pend.req.isGrant ==> pend.vouched == |pend.req.privileges|)
    ensures NothingNew(c, Changed(c, pend.req)) <==> !Revives(c, pend.req)
  {
    var req := pend.req;
    if Revives(c, req) {
      RevivesSomething(c, req);
    } else {
      forall p, database, table | ToUpper(p) != "CONNECT" && Reachable(Changed(c, req), p, database, table)
        ensures Reachable(c, p, database, table)
      {
        if req.isGrant {
          GrantAddsNothing(c, req, p, database, table);
        } else {
          RevokeBounded(c, req, p, database, table);
        }
      }
    }
  }

  /** In every state of every interleaving, a step brings something into reach if and only if it is the change of a
      GRANT one of whose privileges nobody but root holds any more on the resource of the grant. */
  lemma RevivesExactly(c: Catalog, steps: seq<Step>, step: Step)
    requires Inv(c) && Legal(Server(c, map[]), steps) && Enabled(Run(Server(c, map[]), steps), step)
    ensures var s := Run(Server(c, map[]), steps);
            NothingNew(s.catalog, Apply(s, step).catalog) <==>
              !(step.Change? && Revives(s.catalog, s.pending[step.id].req))
  {
    var s := Run(Server(c, map[]), steps);
    UpperWords();
    NoAmplificationInterleaved(c, steps, "SELECT", "", "");
    RunProper(Server(c, map[]), steps);
    match step
    case Change(id) => ChangeRevivesExactly(s.catalog, s.pending[id]);
    case Other(ev) =>
      forall p, database, table | ToUpper(p) != "CONNECT" && Reachable(Next(s.catalog, ev), p, database, table)
        ensures Reachable(s.catalog, p, database, table)
      {
        NextDoesNotAmplify(s.catalog, ev, p, database, table);
      }
    case _ =>
  }

  /** A GRANT that would revive something is refused when it is made as one step. */
  lemma RevivalIsRefused(c: Catalog, st: Storage, req: Request)
    requires Revives(c, req) && req.session != "root" && Wellformed(req) && Found(c, st, BuildGrant(req))
    ensures Decide(c, st, req) == AUTHORIZATION_DENIED
  {
    var g := BuildGrant(req);
    var q :| q in g.privileges && !Reachable(c, q, g.database, g.table);
    assert !Allowed(c, req.session, q, g.database, g.table);
  }

  // ---------------------------------------------------------------- one statement alone

  lemma {:induction false} RunJoins(s: Server, a: seq<Step>, b: seq<Step>)
    requires Legal(s, a) && Legal(Run(s, a), b)
    ensures Legal(s, a + b) && Run(s, a + b) == Run(Run(s, a), b)
    decreases |a|
  {
    if a == [] {
      assert a + b == b;
    } else {
      assert (a + b)[1..] == a[1..] + b;
      RunJoins(Apply(s, a[0]), a[1..], b);
    }
  }

  lemma RunThen(s: Server, a: seq<Step>, step: Step)
    requires Legal(s, a) && Enabled(Run(s, a), step)
    ensures Legal(s, a + [step]) && Run(s, a + [step]) == Apply(Run(s, a), step)
  {
    assert Legal(Apply(Run(s, a), step), []);
    RunJoins(s, a, [step]);
  }

  function Vouchings(id: Id, n: nat): seq<Step> {
    if n == 0 then [] else Vouchings(id, n - 1) + [Vouch(id)]
  }

  function Script(id: Id, req: Request, st: Storage): seq<Step> {
    [Open(id, req)] + [Locate(id, st)] + (if req.isGrant then Vouchings(id, |req.privileges|) else []) + [Change(id)]
  }

  lemma {:induction false} VouchAll(s: Server, id: Id, n: nat)
    requires id in s.pending && s.pending[id].located && s.pending[id].vouched == 0
    requires var req := s.pending[id].req;
             req.isGrant && n <= |req.privileges| && HoldsAll(s.catalog, req.session, BuildGrant(req))
    ensures Legal(s, Vouchings(id, n))
    ensures Run(s, Vouchings(id, n)) == s.(pending := s.pending[id := s.pending[id].(vouched := n)])
  {
    if n == 0 {
      assert s.pending[id := s.pending[id].(vouched := 0)] == s.pending;
    } else {
      VouchAll(s, id, n - 1);
      var g := BuildGrant(s.pending[id].req);
      assert g.privileges[n - 1] in g.privileges;
      RunThen(s, Vouchings(id, n - 1), Vouch(id));
      assert s.pending[id := s.pending[id].(vouched := n - 1)][id := s.pending[id].(vouched := n)]
          == s.pending[id := s.pending[id].(vouched := n)];
    }
  }

  lemma OpenAndLocate(c: Catalog, id: Id, req: Request, st: Storage)
    requires (req.isGrant ==> req.session != "root") && Decide(c, st, req) == SUCCESS
    ensures var s, steps := Server(c, map[]), [Open(id, req)] + [Locate(id, st)];
            Legal(s, steps) && Run(s, steps) == Server(c, map[id := Pending(req, true, 0)])
  {
    var s := Server(c, map[]);
    assert Legal(s, []) && [] + [Open(id, req)] == [Open(id, req)];
    RunThen(s, [], Open(id, req));
    RunThen(s, [Open(id, req)], Locate(id, st));
  }

  /** A statement that nothing comes between does exactly what it does as one step. */
  lemma AloneIsAfter(c: Catalog, id: Id, req: Request, st: Storage)
    requires (req.isGrant ==> req.session != "root") && Decide(c, st, req) == SUCCESS
    ensures Legal(Server(c, map[]), Script(id, req, st))
    ensures Run(Server(c, map[]), Script(id, req, st)) == Server(After(c, st, req), map[])
  {
    var s, begin := Server(c, map[]), [Open(id, req)] + [Locate(id, st)];
    OpenAndLocate(c, id, req, st);
    var vouchings := if req.isGrant then Vouchings(id, |req.privileges|) else [];
    var s1 := Server(c, map[id := Pending(req, true, 0)]);
    if req.isGrant { VouchAll(s1, id, |req.privileges|); }
    RunJoins(s, begin, vouchings);
    RunThen(s, begin + vouchings, Change(id));
    assert Run(s1, vouchings).pending - {id} == map[];
  }

  lemma {:induction false} LegalParts(s: Server, a: seq<Step>, b: seq<Step>)
    requires Legal(s, a + b)
    ensures Legal(s, a) && Legal(Run(s, a), b)
    decreases |a|
  {
    if a == [] {
      assert a + b == b;
    } else {
      assert (a + b)[1..] == a[1..] + b;
      LegalParts(Apply(s, a[0]), a[1..], b);
    }
  }

  lemma {:induction false} AllVouched(s: Server, id: Id, n: nat)
    requires id in s.pending && s.pending[id].vouched == 0 && Legal(s, Vouchings(id, n))
    ensures Run(s, Vouchings(id, n)) == s.(pending := s.pending[id := s.pending[id].(vouched := n)])
    ensures forall k | 0 <= k < n :: Vouches(s.catalog, s.pending[id].req.session, BuildGrant(s.pending[id].req), k)
  {
    if n == 0 {
      assert s.pending[id := s.pending[id].(vouched := 0)] == s.pending;
    } else {
      RunSplits(s, Vouchings(id, n - 1), Vouch(id));
      AllVouched(s, id, n - 1);
      assert s.pending[id := s.pending[id].(vouched := n - 1)][id := s.pending[id].(vouched := n)]
          == s.pending[id := s.pending[id].(vouched := n)];
    }
  }

  lemma OpenedAndLocated(c: Catalog, id: Id, req: Request, st: Storage)
    requires Legal(Server(c, map[]), [Open(id, req)] + [Locate(id, st)])
    ensures Run(Server(c, map[]), [Open(id, req)] + [Locate(id, st)]) == Server(c, map[id := Pending(req, true, 0)])
    ensures Enabled(Server(c, map[]), Open(id, req)) && Found(c, st, BuildGrant(req))
  {
    var s0 := Server(c, map[]);
    RunSplits(s0, [Open(id, req)], Locate(id, st));
    assert [] + [Open(id, req)] == [Open(id, req)];
    RunSplits(s0, [], Open(id, req));
    var s1 := Server(c, map[id := Pending(req, false, 0)]);
    assert Run(s0, [Open(id, req)]) == s1;
    assert map[id := Pending(req, false, 0)][id := Pending(req, true, 0)] == map[id := Pending(req, true, 0)];
  }

  lemma AllHeld(c: Catalog, session: string, g: Grant)
    requires forall k | 0 <= k < |g.privileges| :: Vouches(c, session, g, k)
    ensures HoldsAll(c, session, g)
  {
    forall p | p in g.privileges ensures p != "ALL" && Allowed(c, session, p, g.database, g.table) {
      var k :| 0 <= k < |g.privileges| && g.privileges[k] == p;
      assert Vouches(c, session, g, k);
    }
  }

  /** Only a statement that passes every check gets through alone; whether the receiver exists is found at the
      change. */
  lemma AloneOnlyIf(c: Catalog, id: Id, req: Request, st: Storage)
    requires Legal(Server(c, map[]), Script(id, req, st))
    ensures Decide(c, st, req) == SUCCESS || Decide(c, st, req) == USER_NOT_EXIST
  {
    var s0, begin := Server(c, map[]), [Open(id, req)] + [Locate(id, st)];
    var vouchings := if req.isGrant then Vouchings(id, |req.privileges|) else [];
    assert Script(id, req, st) == begin + (vouchings + [Change(id)]);
    LegalParts(s0, begin, vouchings + [Change(id)]);
    OpenedAndLocated(c, id, req, st);
    var s2 := Server(c, map[id := Pending(req, true, 0)]);
    LegalParts(s2, vouchings, [Change(id)]);
    if req.isGrant {
      AllVouched(s2, id, |req.privileges|);
      AllHeld(c, req.session, BuildGrant(req));
    }
  }

  /** Every statement under way was opened when its session could administer privileges. */
  lemma {:induction false} OpenedByAdministrator(c: Catalog, steps: seq<Step>, id: Id) returns (j: nat)
    requires Legal(Server(c, map[]), steps) && id in Run(Server(c, map[]), steps).pending
    ensures j < |steps| && Legal(Server(c, map[]), steps[..j])
    ensures var req := Run(Server(c, map[]), steps).pending[id].req;
            steps[j] == Open(id, req) && CanAdmin(Run(Server(c, map[]), steps[..j]).catalog, req.session, "GRANT")
    decreases |steps|
  {
    var s0, n := Server(c, map[]), |steps| - 1;
    if steps == [] {
      assert false;
    } else {
      assert steps == steps[..n] + [steps[n]];
      RunSplits(s0, steps[..n], steps[n]);
      if steps[n].Open? && steps[n].id == id {
        j := n;
      } else {
        j := OpenedByAdministrator(c, steps[..n], id);
        assert steps[..n][..j] == steps[..j];
      }
    }
  }

  lemma {:induction false} RunSplits(s: Server, a: seq<Step>, step: Step)
    requires Legal(s, a + [step])
    ensures Legal(s, a) && Enabled(Run(s, a), step) && Run(s, a + [step]) == Apply(Run(s, a), step)
    decreases |a|
  {
    if a == [] {
      assert a + [step] == [step];
      assert Legal(Apply(s, step), []);
    } else {
      assert (a + [step])[1..] == a[1..] + [step];
      RunSplits(Apply(s, a[0]), a[1..], step);
    }
  }

  // ---------------------------------------------------------------- a revoked privilege comes back

  /** Root takes reading back from Ann, who alone had it. */
  function TakeBack(): Request {
    Request("root", false, true, ["SELECT"], Everything, "ann")
  }

  lemma TakeBackPrivileges()
    ensures BuildGrant(TakeBack()).privileges == ["SELECT"] && ValidPrivilege("SELECT")
  {
    UpperWords();
  }

  lemma TakenBack()
    ensures !Reachable(WithoutGrant(ShopCatalog(), BuildGrant(TakeBack())), "SELECT", "shop", "")
  {
    var c, g := ShopCatalog(), BuildGrant(TakeBack());
    var c' := WithoutGrant(c, g);
    BuiltIsNormal(TakeBack());
    assert ToUpper("SELECT") == "SELECT";
    forall h | h in c'.grants ensures !Confers(h, "SELECT", "shop", "") {
      KeepIn(ReducedAll(c.grants, g), NotEmpty());
      assert h == Reduced(c.grants[0], g);
      KeepIn(c.grants[0].privileges, NotIn(UpperAll(g.privileges)));
      assert UpperAll(g.privileges)[0] == "SELECT";
    }
  }

  lemma LendAfterTaking()
    ensures Reachable(WithGrant(WithoutGrant(ShopCatalog(), BuildGrant(TakeBack())), BuildGrant(LendShop())),
                      "SELECT", "shop", "")
  {
    var c, g := WithoutGrant(ShopCatalog(), BuildGrant(TakeBack())), BuildGrant(LendShop());
    BuiltIsNormal(LendShop());
    assert ToUpper("SELECT") == "SELECT" && g.privileges[0] == "SELECT";
    GrantMeans(c, g, "bob", "SELECT", "shop", "");
  }

  /** Ann's GRANT has passed its checks. */
  lemma LendVouched(st: Storage)
    requires st.isOpen("shop")
    ensures var s, steps := Server(ShopCatalog(), map[]), [Open(0, LendShop())] + [Locate(0, st)] + [Vouch(0)];
            Legal(s, steps) && Run(s, steps) == Server(ShopCatalog(), map[0 := Pending(LendShop(), true, 1)])
  {
    var s := Server(ShopCatalog(), map[]);
    LendShopSucceeds(st);
    OpenAndLocate(ShopCatalog(), 0, LendShop(), st);
    LendShopPrivileges();
    AnnMay();
    RunThen(s, [Open(0, LendShop())] + [Locate(0, st)], Vouch(0));
    assert map[0 := Pending(LendShop(), true, 0)][0 := Pending(LendShop(), true, 1)]
       == map[0 := Pending(LendShop(), true, 1)];
  }

  /** Then Root's REVOKE comes in between. */
  lemma TakenInBetween(s: Server, st: Storage)
    requires s == Server(ShopCatalog(), map[0 := Pending(LendShop(), true, 1)])
    ensures var steps := [Open(1, TakeBack())] + [Locate(1, st)] + [Change(1)];
            Legal(s, steps)
            && Run(s, steps) == s.(catalog := WithoutGrant(ShopCatalog(), BuildGrant(TakeBack())))
  {
    var open, locate, change := Open(1, TakeBack()), Locate(1, st), Change(1);
    assert Legal(s, []) && [] + [open] == [open];
    TakeBackPrivileges();
    RunThen(s, [], open);
    RunThen(s, [open], locate);
    RunThen(s, [open] + [locate], change);
    assert s.pending[1 := Pending(TakeBack(), false, 0)][1 := Pending(TakeBack(), true, 0)] - {1} == s.pending;
  }

  /** A revoked privilege comes back: nobody but root may read the shop any more, and then Ann's GRANT, checked
      before the REVOKE, lets Bob. Made as one step at that moment, the GRANT would have been refused. */
  lemma ComesBack(st: Storage) returns (steps: seq<Step>)
    requires st.isOpen("shop")
    ensures var s := Server(ShopCatalog(), map[]);
            && Legal(s, steps) && Legal(s, steps + [Change(0)])
            && !Reachable(Run(s, steps).catalog, "SELECT", "shop", "")
            && Decide(Run(s, steps).catalog, st, LendShop()) == AUTHORIZATION_DENIED
            && Reachable(Run(s, steps + [Change(0)]).catalog, "SELECT", "shop", "")
  {
    var s := Server(ShopCatalog(), map[]);
    var lend := [Open(0, LendShop())] + [Locate(0, st)] + [Vouch(0)];
    var take := [Open(1, TakeBack())] + [Locate(1, st)] + [Change(1)];
    LendVouched(st);
    TakenInBetween(Run(s, lend), st);
    RunJoins(s, lend, take);
    steps := lend + take;
    TakenBack();
    ShopIsConsistent();
    var c := Run(s, steps).catalog;
    assert c.users == ShopCatalog().users && HasUser(c, "bob");
    LendIsRevival(c, st);
    RunThen(s, steps, Change(0));
    LendAfterTaking();
  }

  lemma LendIsRevival(c: Catalog, st: Storage)
    requires HasUser(c, "bob") && c.databases == ShopCatalog().databases && st.isOpen("shop")
    requires !Reachable(c, "SELECT", "shop", "")
    ensures Decide(c, st, LendShop()) == AUTHORIZATION_DENIED
  {
    LendShopPrivileges();
    assert c.databases[1] == "shop";
    assert "SELECT" in BuildGrant(LendShop()).privileges;
    RevivalIsRefused(c, st, LendShop());
  }
}
