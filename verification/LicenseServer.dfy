/**
License activation: each activation is a database transaction that locks the license row, counts the license's
instances, inserts and commits; creations, revocations and validations run beside it.  A validation is no transaction:
it looks at the license in one query and registers the instance in a later one.

The steps of concurrent transactions interleave freely except where the row lock makes them wait.  The
lock is a parameter of the model, so that what it is needed for can be shown.
*/
module LicenseServer {
  import opened Options

  datatype License = License(max: int, active: bool)

  /** An activation transaction: it holds the row lock from `Begin` on, and may insert once `passed`. */
  datatype Txn = Txn(license: nat, inst: string, passed: bool)

  /** A validation that has found its license active and unexpired and has not registered the instance yet. */
  datatype Visit = Visit(license: nat, inst: string)

  datatype Db = Db(
    byKey: map<string, nat>, // license key -> id
    licenses: map<nat, License>,
    instances: map<string, nat>, // instance id -> license id
    txns: map<nat, Txn>,
    visits: map<nat, Visit>,
    walkIns: set<string>) // instances first registered by the validate path

  const EMPTY := Db(map[], map[], map[], map[], map[], {})

  function DefaultMaxInstances(tier: string): int {
    if tier == "ent" || tier == "enterprise" then 10
    else if tier == "pro" || tier == "professional" then 3
    else 1
  }

  /** The instances registered under a license. */
  function Owned(instances: map<string, nat>, l: nat): set<string> {
    set i | i in instances && instances[i] == l
  }

  datatype Step =
    | Create(key: string, id: nat, tier: string, requested: int)
    | Revoke(key: string)
    | Begin(tx: nat, key: string, inst: string) // SELECT ... FOR UPDATE finds the active license
    | Check(tx: nat) // the two counts, then the limit
    | Commit(tx: nat) // INSERT ... ON CONFLICT, then COMMIT
    | Abort(tx: nat) // any error: the deferred rollback
    | Look(v: nat, key: string, inst: string, expired: bool) // the validation's query; takes no lock
    | WalkIn(v: nat) // its INSERT ... ON CONFLICT, which does not look at the license again

  predicate Locked(d: Db, l: nat) {
    exists tx :: tx in d.txns && d.txns[tx].license == l
  }

  /** The query of a validation finds the license neither revoked nor expired. */
  predicate Good(d: Db, key: string, expired: bool) {
    key in d.byKey && d.byKey[key] in d.licenses && d.licenses[d.byKey[key]].active && !expired
  }

  /**
  With `locking`, steps that need a license row another transaction holds wait for it.  A validation that adds an
  instance needs the row too: its foreign key is checked under a lock that the activation's lock excludes.
  */
  predicate Enabled(d: Db, s: Step, locking: bool) {
    match s
    case Create(key, id, _, _) => key !in d.byKey && id !in d.licenses
    case Revoke(key) => key in d.byKey && (locking ==> !Locked(d, d.byKey[key]))
    case Begin(tx, key, inst) =>
      && key != "" && inst != "" && tx !in d.txns
      && key in d.byKey && d.byKey[key] in d.licenses && d.licenses[d.byKey[key]].active
      && (locking ==> !Locked(d, d.byKey[key]))
    case Check(tx) => tx in d.txns && !d.txns[tx].passed
    case Commit(tx) => tx in d.txns && d.txns[tx].passed
    case Abort(tx) => tx in d.txns
    case Look(v, _, _, _) => v !in d.visits
    case WalkIn(v) => v in d.visits && (locking && d.visits[v].inst !in d.instances ==> !Locked(d, d.visits[v].license))
  }

  /** An instance id that is already registered, with whatever license, keeps its row. */
  function Register(instances: map<string, nat>, inst: string, l: nat): map<string, nat> {
    if inst in instances then instances else instances[inst := l]
  }

  predicate WithinLimit(d: Db, t: Txn) {
    || (t.inst in d.instances && d.instances[t.inst] == t.license)
    || t.license !in d.licenses
    || d.licenses[t.license].max <= 0
    || |Owned(d.instances, t.license)| < d.licenses[t.license].max
  }

  function Next(d: Db, s: Step, locking: bool): Db
    requires Enabled(d, s, locking)
  {
    match s
    case Create(key, id, tier, requested) =>
      var max := if requested == 0 then DefaultMaxInstances(tier) else requested;
      d.(byKey := d.byKey[key := id], licenses := d.licenses[id := License(max, true)])
    case Revoke(key) =>
      var l := d.byKey[key];
      if l in d.licenses then d.(licenses := d.licenses[l := d.licenses[l].(active := false)]) else d
    case Begin(tx, key, inst) => d.(txns := d.txns[tx := Txn(d.byKey[key], inst, false)])
    case Check(tx) =>
      if WithinLimit(d, d.txns[tx]) then d.(txns := d.txns[tx := d.txns[tx].(passed := true)])
      else d.(txns := d.txns - {tx})
    case Commit(tx) =>
      var t := d.txns[tx];
      d.(txns := d.txns - {tx}, instances := Register(d.instances, t.inst, t.license))
    case Abort(tx) => d.(txns := d.txns - {tx})
    case Look(v, key, inst, expired) =>
      if Good(d, key, expired) && inst != "" then d.(visits := d.visits[v := Visit(d.byKey[key], inst)]) else d
    case WalkIn(v) =>
      var Visit(l, inst) := d.visits[v];
      d.(visits := d.visits - {v}, instances := Register(d.instances, inst, l),
         walkIns := if inst in d.instances then d.walkIns else d.walkIns + {inst})
  }

  ghost predicate IsRun(d: Db, steps: seq<Step>, locking: bool, d': Db)
    decreases |steps|
  {
    if steps == [] then d' == d
    else Enabled(d, steps[0], locking) && IsRun(Next(d, steps[0], locking), steps[1..], locking, d')
  }

  // ---------- The cap ----------

  /** Instances of a license that came in through activation. */
  function Activated(d: Db, l: nat): set<string> {
    Owned(d.instances, l) - d.walkIns
  }

  ghost predicate Capped(d: Db, l: nat) {
    l in d.licenses && d.licenses[l].max > 0 ==> |Activated(d, l)| <= d.licenses[l].max
  }

  /**
  The license of an open transaction is active, as a revocation waits for the row; past its check, the transaction still
  has room for the instance it is about to insert.
  */
  ghost predicate HasRoom(d: Db, tx: nat) {
    tx in d.txns ==>
      var t := d.txns[tx];
      && t.license in d.licenses && d.licenses[t.license].active
      && (t.passed && t.inst !in d.instances && d.licenses[t.license].max > 0 ==>
            |Owned(d.instances, t.license)| < d.licenses[t.license].max)
  }

  /** No two transactions hold the same license row. */
  ghost predicate Exclusive(d: Db, tx: nat, ty: nat) {
    tx in d.txns && ty in d.txns && d.txns[tx].license == d.txns[ty].license ==> tx == ty
  }

  ghost predicate Sound(d: Db) {
    && (forall l :: Capped(d, l))
    && (forall tx :: HasRoom(d, tx))
    && (forall tx, ty :: Exclusive(d, tx, ty))
    && (forall i :: i in d.instances ==> d.instances[i] in d.licenses)
    && (forall v :: v in d.visits ==> d.visits[v].license in d.licenses)
  }

  lemma RegisterOwned(instances: map<string, nat>, inst: string, l: nat, k: nat)
    ensures Owned(Register(instances, inst, l), k) ==
      if inst !in instances && k == l then Owned(instances, k) + {inst} else Owned(instances, k)
  {
  }

  lemma CreateSound(d: Db, s: Step, locking: bool)
    requires Sound(d) && s.Create? && Enabled(d, s, locking)
    ensures Sound(Next(d, s, locking))
  {
    var d' := Next(d, s, locking);
    assert Owned(d.instances, s.id) == {};
    forall l: nat ensures Capped(d', l) { assert Capped(d, l); }
    forall tx: nat ensures HasRoom(d', tx) { assert HasRoom(d, tx); }
    forall tx: nat, ty: nat ensures Exclusive(d', tx, ty) { assert Exclusive(d, tx, ty); }
  }

  lemma RowSound(d: Db, s: Step)
    requires Sound(d) && Enabled(d, s, true) && (s.Revoke? || s.Begin? || s.Abort? || s.Look?)
    ensures Sound(Next(d, s, true))
  {
    var d' := Next(d, s, true);
    forall l: nat ensures Capped(d', l) { assert Capped(d, l); }
    forall tx: nat ensures HasRoom(d', tx) { assert HasRoom(d, tx); }
    forall tx: nat, ty: nat ensures Exclusive(d', tx, ty) { assert Exclusive(d, tx, ty); }
  }

  lemma CheckSound(d: Db, tx: nat)
    requires Sound(d) && Enabled(d, Check(tx), true)
    ensures Sound(Next(d, Check(tx), true))
  {
    var d' := Next(d, Check(tx), true);
    forall k: nat ensures Capped(d', k) { assert Capped(d, k); }
    forall ty: nat ensures HasRoom(d', ty) { assert HasRoom(d, ty); }
    forall ty: nat, tz: nat ensures Exclusive(d', ty, tz) { assert Exclusive(d, ty, tz); }
  }

  lemma Smaller(a: set<string>, b: set<string>)
    requires a <= b
    ensures |a| <= |b|
  {
    assert b == a + (b - a);
  }

  lemma CommitSound(d: Db, tx: nat)
    requires Sound(d) && Enabled(d, Commit(tx), true)
    ensures Sound(Next(d, Commit(tx), true))
  {
    var t, d' := d.txns[tx], Next(d, Commit(tx), true);
    assert HasRoom(d, tx);
    forall l: nat ensures Capped(d', l) {
      assert Capped(d, l);
      RegisterOwned(d.instances, t.inst, t.license, l);
      CommitActivated(d, tx, l);
      Smaller(Activated(d, l), Owned(d.instances, l));
    }
    forall ty: nat ensures HasRoom(d', ty) {
      assert HasRoom(d, ty) && Exclusive(d, tx, ty);
      if ty in d'.txns { RegisterOwned(d.instances, t.inst, t.license, d.txns[ty].license); }
    }
    forall tx: nat, ty: nat ensures Exclusive(d', tx, ty) { assert Exclusive(d, tx, ty); }
  }

  lemma CommitActivated(d: Db, tx: nat, l: nat)
    requires Enabled(d, Commit(tx), true)
    ensures var t, d' := d.txns[tx], Next(d, Commit(tx), true);
      |Activated(d', l)| <= |Activated(d, l)| + (if t.inst !in d.instances && l == t.license then 1 else 0)
  {
    var t, d' := d.txns[tx], Next(d, Commit(tx), true);
    RegisterOwned(d.instances, t.inst, t.license, l);
    if t.inst !in d.instances && l == t.license {
      Smaller(Activated(d', l), Activated(d, l) + {t.inst});
    } else {
      assert Activated(d', l) == Activated(d, l);
    }
  }

  lemma WalkInSound(d: Db, v: nat)
    requires Sound(d) && Enabled(d, WalkIn(v), true)
    ensures Sound(Next(d, WalkIn(v), true))
  {
    var visit, d' := d.visits[v], Next(d, WalkIn(v), true);
    forall l: nat ensures Activated(d', l) == Activated(d, l) {
      RegisterOwned(d.instances, visit.inst, visit.license, l);
    }
    forall l: nat ensures Capped(d', l) { assert Capped(d, l); }
    forall tx: nat ensures HasRoom(d', tx) {
      assert HasRoom(d, tx);
      if tx in d.txns { RegisterOwned(d.instances, visit.inst, visit.license, d.txns[tx].license); }
    }
    forall tx: nat, ty: nat ensures Exclusive(d', tx, ty) { assert Exclusive(d, tx, ty); }
  }

  lemma StepSound(d: Db, s: Step)
    requires Sound(d) && Enabled(d, s, true)
    ensures Sound(Next(d, s, true))
  {
    match s
    case Create(_, _, _, _) => CreateSound(d, s, true);
    case Commit(tx) => CommitSound(d, tx);
    case WalkIn(v) => WalkInSound(d, v);
    case Check(tx) => CheckSound(d, tx);
    case _ => RowSound(d, s);
  }

  lemma {:induction false} RunSound(d: Db, steps: seq<Step>, d': Db)
    requires Sound(d) && IsRun(d, steps, true, d')
    ensures Sound(d')
    decreases |steps|
  {
    if steps != [] {
      StepSound(d, steps[0]);
      RunSound(Next(d, steps[0], true), steps[1..], d');
    }
  }

  /**
  In every run of the locked protocol from an empty store: no limited license has more activated instances than
  its limit; all its instances together exceed the limit by at most those the validate path let in.
  */
  lemma CapHolds(steps: seq<Step>, d: Db, l: nat)
    requires IsRun(EMPTY, steps, true, d) && l in d.licenses && d.licenses[l].max > 0
    ensures |Activated(d, l)| <= d.licenses[l].max
    ensures |Owned(d.instances, l)| <= d.licenses[l].max + |Owned(d.instances, l) * d.walkIns|
    ensures d.walkIns == {} ==> |Owned(d.instances, l)| <= d.licenses[l].max
  {
    EmptySound();
    RunSound(EMPTY, steps, d);
    assert Capped(d, l);
    var owned := Owned(d.instances, l);
    assert owned == Activated(d, l) + owned * d.walkIns;
    assert d.walkIns == {} ==> owned * d.walkIns == {};
  }

  lemma EmptySound()
    ensures Sound(EMPTY)
  {
    forall l: nat ensures Capped(EMPTY, l) {}
    forall tx: nat ensures HasRoom(EMPTY, tx) {}
    forall tx: nat, ty: nat ensures Exclusive(EMPTY, tx, ty) {}
  }

  // ---------- Ownership ----------

  /** Whatever runs, validate path and missing lock included, a registered instance stays with its license. */
  lemma {:induction false} OwnershipIsStable(d: Db, steps: seq<Step>, locking: bool, d': Db, inst: string)
    requires IsRun(d, steps, locking, d') && inst in d.instances
    ensures inst in d'.instances && d'.instances[inst] == d.instances[inst]
    decreases |steps|
  {
    if steps != [] {
      OwnershipIsStable(Next(d, steps[0], locking), steps[1..], locking, d', inst);
    }
  }

  // ---------- Revocation ----------

  /** In every locked run, the license of every open transaction is active. */
  lemma OpenTransactionsAreActive(steps: seq<Step>, d: Db, tx: nat)
    requires IsRun(EMPTY, steps, true, d) && tx in d.txns
    ensures d.txns[tx].license in d.licenses && d.licenses[d.txns[tx].license].active
  {
    EmptySound();
    RunSound(EMPTY, steps, d);
    assert HasRoom(d, tx);
  }

  lemma RevokedStep(d: Db, s: Step, l: nat)
    requires Sound(d) && Enabled(d, s, true) && l in d.licenses && !d.licenses[l].active
    ensures var d' := Next(d, s, true);
      l in d'.licenses && !d'.licenses[l].active && Activated(d', l) == Activated(d, l)
  {
    match s
    case Commit(tx) =>
      assert HasRoom(d, tx);
      RegisterOwned(d.instances, d.txns[tx].inst, d.txns[tx].license, l);
    case WalkIn(v) => RegisterOwned(d.instances, d.visits[v].inst, d.visits[v].license, l);
    case _ =>
  }

  /** Once revoked, a license stays revoked and the set of its activated instances never changes again. */
  lemma {:induction false} RevokedForGood(d: Db, steps: seq<Step>, d': Db, l: nat)
    requires Sound(d) && IsRun(d, steps, true, d') && l in d.licenses && !d.licenses[l].active
    ensures l in d'.licenses && !d'.licenses[l].active && Activated(d', l) == Activated(d, l)
    decreases |steps|
  {
    if steps != [] {
      StepSound(d, steps[0]);
      RevokedStep(d, steps[0], l);
      RevokedForGood(Next(d, steps[0], true), steps[1..], d', l);
    }
  }

  /** So from an empty store: what is activated when a license is revoked is all that ever will be. */
  lemma RevocationIsFinal(before: seq<Step>, d: Db, key: string, after: seq<Step>, d': Db)
    requires IsRun(EMPTY, before, true, d) && Enabled(d, Revoke(key), true) && IsRun(Next(d, Revoke(key), true), after, true, d')
    ensures var l := d.byKey[key];
      l in d'.licenses && !d'.licenses[l].active && Activated(d', l) == Activated(d, l)
  {
    EmptySound();
    RunSound(EMPTY, before, d);
    StepSound(d, Revoke(key));
    KeysFollowSteps(before, d, key, true);
    RevokedForGood(Next(d, Revoke(key), true), after, d', d.byKey[key]);
  }

  /** What the license of `key` was created with, read off the run alone. */
  datatype Terms = Terms(id: nat, tier: string, requested: int)

  function Creation(steps: seq<Step>, key: string): Option<Terms> {
    if steps == [] then None
    else if steps[0].Create? && steps[0].key == key then Some(Terms(steps[0].id, steps[0].tier, steps[0].requested))
    else Creation(steps[1..], key)
  }

  /** The license of a key created on these terms. */
  ghost predicate OnTerms(d: Db, key: string, c: Terms, revoked: bool) {
    && key in d.byKey && d.byKey[key] == c.id && c.id in d.licenses
    && d.licenses[c.id] == License(if c.requested == 0 then DefaultMaxInstances(c.tier) else c.requested, !revoked)
  }

  predicate Revoked(steps: seq<Step>, key: string) {
    exists i :: 0 <= i < |steps| && steps[i] == Revoke(key)
  }

  /** Keys name licenses, each its own. */
  ghost predicate Keyed(d: Db) {
    && (forall k :: k in d.byKey ==> d.byKey[k] in d.licenses)
    && (forall j, k :: j in d.byKey && k in d.byKey && d.byKey[j] == d.byKey[k] ==> j == k)
  }

  lemma KeyedStep(d: Db, s: Step, locking: bool)
    requires Enabled(d, s, locking) && Keyed(d)
    ensures Keyed(Next(d, s, locking))
  {
  }

  lemma TermsStep(d: Db, s: Step, locking: bool, key: string, c: Terms, revoked: bool)
    requires Enabled(d, s, locking) && Keyed(d) && OnTerms(d, key, c, revoked)
    ensures OnTerms(Next(d, s, locking), key, c, revoked || s == Revoke(key))
  {
  }

  lemma {:induction false} KeyStays(d: Db, steps: seq<Step>, locking: bool, d': Db, key: string, c: Terms, revoked: bool)
    requires IsRun(d, steps, locking, d') && Keyed(d) && OnTerms(d, key, c, revoked)
    ensures OnTerms(d', key, c, revoked || Revoked(steps, key))
    decreases |steps|
  {
    if steps != [] {
      KeyedStep(d, steps[0], locking);
      TermsStep(d, steps[0], locking, key, c, revoked);
      RevokedSplit(steps, key);
      KeyStays(Next(d, steps[0], locking), steps[1..], locking, d', key, c, revoked || steps[0] == Revoke(key));
    }
  }

  lemma RevokedSplit(steps: seq<Step>, key: string)
    requires steps != []
    ensures Revoked(steps, key) <==> steps[0] == Revoke(key) || Revoked(steps[1..], key)
  {
    if steps[0] != Revoke(key) && Revoked(steps, key) {
      var i :| 0 <= i < |steps| && steps[i] == Revoke(key);
      assert steps[1..][i - 1] == Revoke(key);
    }
    if Revoked(steps[1..], key) {
      var i :| 0 <= i < |steps[1..]| && steps[1..][i] == Revoke(key);
      assert steps[i + 1] == Revoke(key);
    }
  }

  lemma {:induction false} KeysFollow(d: Db, steps: seq<Step>, locking: bool, d': Db, key: string)
    requires IsRun(d, steps, locking, d') && Keyed(d) && key !in d.byKey
    ensures match Creation(steps, key)
      case None => key !in d'.byKey
      case Some(c) => OnTerms(d', key, c, Revoked(steps, key))
    decreases |steps|
  {
    if steps != [] {
      var d1, s := Next(d, steps[0], locking), steps[0];
      KeyedStep(d, s, locking);
      RevokedSplit(steps, key);
      if s.Create? && s.key == key {
        KeyStays(d1, steps[1..], locking, d', key, Terms(s.id, s.tier, s.requested), false);
      } else {
        KeysFollow(d1, steps[1..], locking, d', key);
      }
    }
  }

  /** A key's license, its limit and whether it is active, told from the steps of the run alone. */
  lemma KeysFollowSteps(steps: seq<Step>, d: Db, key: string, locking: bool)
    requires IsRun(EMPTY, steps, locking, d)
    ensures match Creation(steps, key)
      case None => key !in d.byKey
      case Some(c) => OnTerms(d, key, c, Revoked(steps, key))
  {
    KeysFollow(EMPTY, steps, locking, d, key);
  }

  /**
  When nothing holds its row, an activation under `key` can start exactly when the key was created and not revoked; and
  a validation goes on to register its instance exactly when, besides, the license has not expired.
  */
  lemma StartsIffActive(steps: seq<Step>, d: Db, key: string, inst: string, tx: nat, v: nat, expired: bool)
    requires IsRun(EMPTY, steps, true, d) && key != "" && inst != "" && tx !in d.txns && v !in d.visits
    requires key in d.byKey ==> !Locked(d, d.byKey[key])
    ensures var usable := Creation(steps, key).Some? && !Revoked(steps, key);
      && (Enabled(d, Begin(tx, key, inst), true) <==> usable)
      && var visits := Next(d, Look(v, key, inst, expired), true).visits;
         && (v in visits <==> usable && !expired)
         && (v in visits ==> visits[v] == Visit(d.byKey[key], inst))
  {
    KeysFollowSteps(steps, d, key, true);
  }

  /**
  An instance is registered under a license by exactly two steps, each for its own instance and license: the commit of an
  activation past its check, and a validation's insert.
  */
  lemma RegistersIff(d: Db, s: Step, locking: bool, inst: string, l: nat)
    requires Enabled(d, s, locking) && inst !in d.instances
    ensures var after := Next(d, s, locking).instances;
      inst in after && after[inst] == l <==>
        || (s.Commit? && d.txns[s.tx] == Txn(l, inst, true))
        || (s.WalkIn? && d.visits[s.v] == Visit(l, inst))
  {
  }

  /** One activation that nothing else interleaves with, up to and including its limit check. */
  function Checked(d: Db, tx: nat, key: string, inst: string, locking: bool): Db
    requires Enabled(d, Begin(tx, key, inst), locking)
  {
    Next(Next(d, Begin(tx, key, inst), locking), Check(tx), locking)
  }

  /**
  Activating an instance that is already registered leaves the whole store as it was.  Under its own license it
  always passes the check, however full the license is; under another it passes or is refused, and in
  neither case does any license's set of instances change.
  */
  lemma ReactivationChangesNothing(d: Db, tx: nat, key: string, inst: string, locking: bool)
    requires Enabled(d, Begin(tx, key, inst), locking) && inst in d.instances
    ensures var d' := Checked(d, tx, key, inst, locking);
      && (d.instances[inst] == d.byKey[key] ==> tx in d'.txns)
      && (tx in d'.txns ==> IsRun(d, [Begin(tx, key, inst), Check(tx), Commit(tx)], locking, d))
      && (tx !in d'.txns ==> IsRun(d, [Begin(tx, key, inst), Check(tx)], locking, d))
  {
    var d1 := Next(d, Begin(tx, key, inst), locking);
    var d2 := Checked(d, tx, key, inst, locking);
    assert d1.txns - {tx} == d.txns;
    if tx in d2.txns {
      assert d2.txns - {tx} == d.txns;
      assert Next(d2, Commit(tx), locking) == d;
      assert IsRun(d, [Begin(tx, key, inst)] + ([Check(tx)] + ([Commit(tx)] + [])), locking, d) by {
        var r3 := RunMore(d2, Commit(tx), [], locking, d);
        var r2 := RunMore(d1, Check(tx), r3, locking, d);
        var r1 := RunMore(d, Begin(tx, key, inst), r2, locking, d);
      }
      assert [Begin(tx, key, inst)] + ([Check(tx)] + ([Commit(tx)] + [])) == [Begin(tx, key, inst), Check(tx), Commit(tx)];
    } else {
      var r2 := RunMore(d1, Check(tx), [], locking, d);
      var r1 := RunMore(d, Begin(tx, key, inst), r2, locking, d);
      assert r1 == [Begin(tx, key, inst), Check(tx)];
    }
  }

  /** An activation that passes its check registers its instance, new until then, under its own license, and nothing else. */
  lemma ActivationRegisters(d: Db, tx: nat, key: string, inst: string, locking: bool)
    requires Enabled(d, Begin(tx, key, inst), locking) && inst !in d.instances
    requires tx in Checked(d, tx, key, inst, locking).txns
    ensures var checked := Checked(d, tx, key, inst, locking);
      && Enabled(checked, Commit(tx), locking)
      && Next(checked, Commit(tx), locking) == d.(instances := d.instances[inst := d.byKey[key]])
  {
    assert Checked(d, tx, key, inst, locking).txns - {tx} == d.txns;
  }

  /** An unregistered instance is turned away exactly when its license is limited and full. */
  lemma RefusedIffFull(d: Db, tx: nat, key: string, inst: string, locking: bool)
    requires Enabled(d, Begin(tx, key, inst), locking) && inst !in d.instances
    ensures var l := d.byKey[key];
      tx !in Checked(d, tx, key, inst, locking).txns <==>
        d.licenses[l].max > 0 && |Owned(d.instances, l)| >= d.licenses[l].max
  {
    assert Next(d, Begin(tx, key, inst), locking).txns[tx].license == d.byKey[key];
  }

  // ---------- What the lock and the validate path do to the cap ----------

  ghost predicate OverLimit(d: Db, l: nat) {
    l in d.licenses && d.licenses[l].max > 0 && |Owned(d.instances, l)| > d.licenses[l].max
  }

  lemma RunMore(d: Db, s: Step, steps: seq<Step>, locking: bool, d': Db) returns (more: seq<Step>)
    requires Enabled(d, s, locking) && IsRun(Next(d, s, locking), steps, locking, d')
    ensures IsRun(d, more, locking, d') && |more| == |steps| + 1 && more == [s] + steps
  {
    more := [s] + steps;
    assert more[1..] == steps;
  }

  /** A store with one license K of one place. */
  function Store(active: bool, instances: map<string, nat>, visits: map<nat, Visit>, walkIns: set<string>): Db {
    Db(map["K" := 0], map[0 := License(1, active)], instances, map[], visits, walkIns)
  }

  const VISIT_B := map[2 := Visit(0, "b")]

  /** K is created, two validations look at it, and the first registers "a"; what follows is `rest`. */
  lemma FirstWalkIn(rest: seq<Step>, d: Db) returns (steps: seq<Step>)
    requires IsRun(Store(true, map["a" := 0], VISIT_B, {"a"}), rest, true, d)
    ensures IsRun(EMPTY, steps, true, d) && |steps| >= |rest| && steps[|steps| - |rest|..] == rest
  {
    var c := Store(true, map[], VISIT_B[1 := Visit(0, "a")], {});
    assert c.visits - {1} == VISIT_B;
    assert Next(c, WalkIn(1), true) == Store(true, map["a" := 0], VISIT_B, {"a"});
    steps := RunMore(c, WalkIn(1), rest, true, d);
    steps := TwoLook(steps, d);
  }

  lemma TwoLook(rest: seq<Step>, d: Db) returns (steps: seq<Step>)
    requires IsRun(Store(true, map[], VISIT_B[1 := Visit(0, "a")], {}), rest, true, d)
    ensures IsRun(EMPTY, steps, true, d) && |steps| >= |rest| && steps[|steps| - |rest|..] == rest
  {
    var c0, c1 := Store(true, map[], map[], {}), Store(true, map[], VISIT_B, {});
    assert Next(EMPTY, Create("K", 0, "free", 0), true) == c0;
    assert Next(c0, Look(2, "K", "b", false), true) == c1;
    steps := RunMore(c1, Look(1, "K", "a", false), rest, true, d);
    steps := RunMore(c0, Look(2, "K", "b", false), steps, true, d);
    steps := RunMore(EMPTY, Create("K", 0, "free", 0), steps, true, d);
  }

  /** The validate path registers without looking at the limit. */
  lemma ValidatePathExceedsCap() returns (steps: seq<Step>, d: Db)
    ensures IsRun(EMPTY, steps, true, d) && OverLimit(d, 0) && d.licenses[0].active
  {
    var d1 := Store(true, map["a" := 0], VISIT_B, {"a"});
    d := Next(d1, WalkIn(2), true);
    steps := RunMore(d1, WalkIn(2), [], true, d);
    steps := FirstWalkIn(steps, d);
    assert Owned(d.instances, 0) == {"a", "b"};
  }

  /**
  Even a revoked license can be taken over its limit: a validation that looked before the revocation registers its
  instance after it.
  */
  lemma RevokedLicenseExceedsCap() returns (before: seq<Step>, d: Db)
    ensures IsRun(EMPTY, before + [Revoke("K"), WalkIn(2)], true, d) && OverLimit(d, 0) && !d.licenses[0].active
  {
    var d1 := Store(true, map["a" := 0], VISIT_B, {"a"});
    var d2 := Next(d1, Revoke("K"), true);
    d := Next(d2, WalkIn(2), true);
    var rest := RunMore(d2, WalkIn(2), [], true, d);
    rest := RunMore(d1, Revoke("K"), rest, true, d);
    var steps := FirstWalkIn(rest, d);
    before := steps[..|steps| - 2];
    assert rest == [Revoke("K"), WalkIn(2)];
    assert steps == before + [Revoke("K"), WalkIn(2)];
    assert Owned(d.instances, 0) == {"a", "b"};
  }

  /** The insert a server could refuse: a validation adding an instance to a limited license that is exactly full. */
  predicate Crosses(d: Db, s: Step, l: nat) {
    && s.WalkIn? && s.v in d.visits && d.visits[s.v].license == l && d.visits[s.v].inst !in d.instances
    && l in d.licenses && d.licenses[l].max > 0 && |Owned(d.instances, l)| == d.licenses[l].max
  }

  /** It is the only step that takes a license over its limit, and it always does. */
  lemma CrossesCapIff(d: Db, s: Step, l: nat)
    requires Sound(d) && Enabled(d, s, true) && !OverLimit(d, l)
    ensures OverLimit(Next(d, s, true), l) <==> Crosses(d, s, l)
  {
    match s
    case Create(_, id, _, _) =>
      assert Owned(d.instances, id) == {};
    case Commit(tx) =>
      assert HasRoom(d, tx);
      RegisterOwned(d.instances, d.txns[tx].inst, d.txns[tx].license, l);
    case WalkIn(v) =>
      RegisterOwned(d.instances, d.visits[v].inst, d.visits[v].license, l);
    case _ =>
  }

  lemma OverLimitStays(d: Db, s: Step, l: nat)
    requires Enabled(d, s, true) && OverLimit(d, l)
    ensures OverLimit(Next(d, s, true), l)
  {
    Smaller(Owned(d.instances, l), Owned(Next(d, s, true).instances, l));
  }

  /** Some step of the run crosses the limit of l. */
  ghost predicate EverCrosses(d: Db, steps: seq<Step>, l: nat)
    decreases |steps|
  {
    steps != [] && (Crosses(d, steps[0], l) || (Enabled(d, steps[0], true) && EverCrosses(Next(d, steps[0], true), steps[1..], l)))
  }

  /** So at the end of any run a license is over its limit exactly when such a validation was let through on the way. */
  lemma {:induction false} OverLimitIffCrossed(d: Db, steps: seq<Step>, d': Db, l: nat)
    requires Sound(d) && IsRun(d, steps, true, d')
    ensures OverLimit(d', l) <==> OverLimit(d, l) || EverCrosses(d, steps, l)
    decreases |steps|
  {
    if steps != [] {
      var d1 := Next(d, steps[0], true);
      StepSound(d, steps[0]);
      OverLimitIffCrossed(d1, steps[1..], d', l);
      if OverLimit(d, l) {
        OverLimitStays(d, steps[0], l);
      } else {
        CrossesCapIff(d, steps[0], l);
      }
    }
  }

  /** With activations alone, every run respects every limit. */
  ghost predicate ActivationKeepsCaps(locking: bool) {
    forall steps, d, l :: IsRun(EMPTY, steps, locking, d) && d.walkIns == {} ==> !OverLimit(d, l)
  }

  /** That is what the row lock buys, no more and no less. */
  lemma CapsNeedTheLock(locking: bool)
    ensures ActivationKeepsCaps(locking) <==> locking
  {
    if locking {
      forall steps, d, l | IsRun(EMPTY, steps, true, d) && d.walkIns == {} ensures !OverLimit(d, l) {
        if OverLimit(d, l) { CapHolds(steps, d, l); }
      }
    } else {
      var steps, d := NoLockExceedsCap();
    }
  }

  /** Without the row lock two activations can both pass the check on a license with one place left. */
  lemma NoLockExceedsCap() returns (steps: seq<Step>, d: Db)
    ensures IsRun(EMPTY, steps, false, d) && d.walkIns == {} && OverLimit(d, 0)
  {
    var d0 := Db(map["K" := 0], map[0 := License(1, true)], map[], map[1 := Txn(0, "a", true), 2 := Txn(0, "b", true)], map[], {});
    var d1 := Next(d0, Commit(1), false);
    d := Next(d1, Commit(2), false);
    steps := RunMore(d1, Commit(2), [], false, d);
    steps := RunMore(d0, Commit(1), steps, false, d);
    steps := BothPass(steps, d0, d);
    assert Owned(d.instances, 0) == {"a", "b"};
  }

  lemma BothPass(rest: seq<Step>, d0: Db, d: Db) returns (steps: seq<Step>)
    requires d0 == Db(map["K" := 0], map[0 := License(1, true)], map[], map[1 := Txn(0, "a", true), 2 := Txn(0, "b", true)], map[], {})
    requires IsRun(d0, rest, false, d)
    ensures IsRun(EMPTY, steps, false, d)
  {
    var c3 := d0.(txns := map[1 := Txn(0, "a", false), 2 := Txn(0, "b", false)]);
    assert Owned(c3.instances, 0) == {};
    var c4 := Next(c3, Check(1), false);
    assert Owned(c4.instances, 0) == {};
    assert Next(c4, Check(2), false).txns == d0.txns;
    steps := RunMore(c4, Check(2), rest, false, d);
    steps := RunMore(c3, Check(1), steps, false, d);
    steps := BothBegin(steps, c3, d);
  }

  lemma BothBegin(rest: seq<Step>, c3: Db, d: Db) returns (steps: seq<Step>)
    requires c3 == Db(map["K" := 0], map[0 := License(1, true)], map[], map[1 := Txn(0, "a", false), 2 := Txn(0, "b", false)], map[], {})
    requires IsRun(c3, rest, false, d)
    ensures IsRun(EMPTY, steps, false, d)
  {
    var c1 := Next(EMPTY, Create("K", 0, "free", 0), false);
    var c2 := Next(c1, Begin(1, "K", "a"), false);
    assert Next(c2, Begin(2, "K", "b"), false).txns == c3.txns;
    steps := RunMore(c2, Begin(2, "K", "b"), rest, false, d);
    steps := RunMore(c1, Begin(1, "K", "a"), steps, false, d);
    steps := RunMore(EMPTY, Create("K", 0, "free", 0), steps, false, d);
  }
}
