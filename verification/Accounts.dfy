/** The account store (`History`'s users, identities and API keys) as a relational
    state machine, and sign-in through a provider on top of it (`Auth.oidc_signin`,
    `oidc_link`, `derive_username`), with other requests free to act between its steps. */
module Accounts {
  import opened Prelude

  const PROVIDER: string := "oidc"

  datatype Role = Viewer | Operator | Admin

  /** A stored credential: a hashed password, or the sentinel no password matches. */
  datatype Secret = Password(text: string) | Sentinel(serial: int)

  datatype User = User(secret: Secret, role: Role)

  /** A row of `identities`; no subject while an administrator's pre-link is pending. */
  datatype Identity = Identity(subject: Option<string>, email: Option<string>, display: Option<string>, linkedAt: real)

  datatype ApiKey = ApiKey(owner: string, role: Role)

  type Slot = (string, string)

  /** The three tables by their primary keys; identities by provider and user. */
  datatype Db = Db(users: map<string, User>, ids: map<Slot, Identity>, keys: map<string, ApiKey>)

  // ------------------------------------------------------------- invariants

  predicate Claimed(db: Db, p: string, s: string, u: string) {
    (p, u) in db.ids && db.ids[(p, u)].subject == Some(s)
  }

  predicate IsAdmin(db: Db, u: string) {
    u in db.users && db.users[u].role == Admin
  }

  ghost predicate HasAdmin(db: Db) {
    exists u :: IsAdmin(db, u)
  }

  ghost predicate Rival(db: Db, k: Slot, l: Slot) {
    k in db.ids && l in db.ids && k.0 == l.0 && k != l &&
    db.ids[k].subject.Some? && db.ids[k].subject == db.ids[l].subject
  }

  /** The foreign keys, the UNIQUE constraint, and that no empty subject is stored. */
  ghost predicate Sound(db: Db) {
    && (forall k :: k in db.ids ==> k.1 in db.users && db.ids[k].subject != Some(""))
    && (forall id :: id in db.keys ==> db.keys[id].owner in db.users)
    && (forall k, l :: !Rival(db, k, l))
  }

  // ------------------------------------------------------------- operations

  datatype Op =
    | AddUser(user: string, password: string, role: Role)
    | RemoveUser(user: string)
    | SetRole(user: string, role: Role)
    | SetPassword(user: string, password: string)
    | Rename(user: string, name: string)
    | AddIdentityUser(user: string, role: Role, serial: int)
    | Rotate(user: string, serial: int)
    | Link(user: string, provider: string, subject: string, email: Option<string>, display: Option<string>, at: real)
    | Prelink(user: string, provider: string, address: string, at: real)
    | Claim(provider: string, address: string, subject: string, display: Option<string>, chosen: string)
    | Touch(provider: string, subject: string, email: Option<string>, display: Option<string>)
    | Unlink(user: string, provider: string)
    | AddKey(user: string, id: string, role: Role)
    | RemoveKey(id: string, owner: Option<string>)

  /** Removing or demoting this user would leave no administrator. */
  predicate LastAdmin(db: Db, u: string) {
    IsAdmin(db, u) && forall v :: v in db.users && IsAdmin(db, v) ==> v == u
  }

  predicate Unclaimed(db: Db, p: string, s: string) {
    forall k :: k in db.ids ==> !(k.0 == p && db.ids[k].subject == Some(s))
  }

  predicate Pending(db: Db, p: string, address: string, u: string) {
    (p, u) in db.ids && db.ids[(p, u)].subject == None && db.ids[(p, u)].email == Some(address)
  }

  /** A pending row for the address, none of them older. */
  predicate FirstPending(db: Db, p: string, address: string, u: string) {
    Pending(db, p, address, u) &&
    forall k :: k in db.ids && k.0 == p && Pending(db, p, address, k.1) ==>
      db.ids[(p, u)].linkedAt <= db.ids[k].linkedAt
  }

  /** A row that waits for the address: no subject yet. */
  ghost predicate Prelinked(db: Db, p: string, address: string, u: string) {
    (p, u) in db.ids && db.ids[(p, u)].subject.None? && db.ids[(p, u)].email == Some(address)
  }

  ghost predicate OldestPrelink(db: Db, p: string, address: string, u: string) {
    Prelinked(db, p, address, u) &&
    forall v :: Prelinked(db, p, address, v) ==> db.ids[(p, u)].linkedAt <= db.ids[(p, v)].linkedAt
  }

  lemma PendingMeaning(db: Db, p: string, address: string, u: string)
    ensures Pending(db, p, address, u) <==> Prelinked(db, p, address, u)
    ensures FirstPending(db, p, address, u) <==> OldestPrelink(db, p, address, u)
  {
    if FirstPending(db, p, address, u) {
      forall v | Prelinked(db, p, address, v) ensures db.ids[(p, u)].linkedAt <= db.ids[(p, v)].linkedAt {
        assert (p, v) in db.ids && Pending(db, p, address, (p, v).1);
      }
    }
    if OldestPrelink(db, p, address, u) {
      forall k | k in db.ids && k.0 == p && Pending(db, p, address, k.1)
        ensures db.ids[(p, u)].linkedAt <= db.ids[k].linkedAt
      {
        assert Prelinked(db, p, address, k.1);
      }
    }
  }

  function WithSecret(db: Db, u: string, s: Secret): Db
    requires u in db.users
  {
    db.(users := db.users[u := db.users[u].(secret := s)])
  }

  /** ON DELETE CASCADE. */
  function Removed(db: Db, u: string): Db {
    Db(db.users - {u}, map k | k in db.ids && k.1 != u :: db.ids[k],
       map id | id in db.keys && db.keys[id].owner != u :: db.keys[id])
  }

  function Moved(k: Slot, was: string, name: string): Slot {
    if k.1 == was then (k.0, name) else k
  }

  /** ON UPDATE CASCADE. */
  function Renamed(db: Db, was: string, name: string): Db
    requires Sound(db) && was in db.users && (name == was || name !in db.users)
  {
    Db((db.users - {was})[name := db.users[was]],
       map k | k in db.ids :: Moved(k, was, name) := db.ids[k],
       map id | id in db.keys :: if db.keys[id].owner == was then db.keys[id].(owner := name) else db.keys[id])
  }

  function Coalesce(x: Option<string>, y: Option<string>): Option<string> {
    if x.Some? then x else y
  }

  function Touched(db: Db, p: string, s: string, email: Option<string>, display: Option<string>): Db {
    db.(ids := map k | k in db.ids ::
          if k.0 == p && db.ids[k].subject == Some(s)
          then db.ids[k].(email := Coalesce(email, db.ids[k].email), display := Coalesce(display, db.ids[k].display))
          else db.ids[k])
  }

  /** What one operation does to the tables. */
  function Step(db: Db, op: Op): Db
    requires Sound(db)
  {
    match op
    case AddUser(u, password, role) =>
      if u in db.users then WithSecret(db, u, Password(password))
      else db.(users := db.users[u := User(Password(password), role)])
    case RemoveUser(u) =>
      if u !in db.users || LastAdmin(db, u) then db else Removed(db, u)
    case SetRole(u, role) =>
      if u !in db.users || (role != Admin && LastAdmin(db, u)) then db
      else db.(users := db.users[u := db.users[u].(role := role)])
    case SetPassword(u, password) =>
      if u in db.users then WithSecret(db, u, Password(password)) else db
    case Rename(u, name) =>
      if u in db.users && (name == u || name !in db.users) then Renamed(db, u, name) else db
    case AddIdentityUser(u, role, serial) =>
      if u in db.users then db else db.(users := db.users[u := User(Sentinel(serial), role)])
    case Rotate(u, serial) =>
      if u in db.users && db.users[u].secret.Sentinel? then WithSecret(db, u, Sentinel(serial)) else db
    case Link(u, p, s, email, display, at) =>
      if s != "" && u in db.users && (p, u) !in db.ids && Unclaimed(db, p, s)
      then db.(ids := db.ids[(p, u) := Identity(Some(s), email, display, at)]) else db
    case Prelink(u, p, address, at) =>
      if address == "" || u !in db.users || ((p, u) in db.ids && db.ids[(p, u)].subject.Some?) then db
      else if (p, u) in db.ids then
        db.(ids := db.ids[(p, u) := db.ids[(p, u)].(email := Some(address), linkedAt := at)])
      else db.(ids := db.ids[(p, u) := Identity(None, Some(address), None, at)])
    case Claim(p, address, s, display, chosen) =>
      if address != "" && s != "" && Unclaimed(db, p, s) && FirstPending(db, p, address, chosen)
      then db.(ids := db.ids[(p, chosen) := Identity(Some(s), Some(address), display, db.ids[(p, chosen)].linkedAt)])
      else db
    case Touch(p, s, email, display) => Touched(db, p, s, email, display)
    case Unlink(u, p) => db.(ids := db.ids - {(p, u)})
    case AddKey(u, id, role) =>
      if u in db.users && id !in db.keys then db.(keys := db.keys[id := ApiKey(u, role)]) else db
    case RemoveKey(id, owner) =>
      if id in db.keys && (owner.None? || owner.value == db.keys[id].owner) then db.(keys := db.keys - {id}) else db
  }

  // ------------------------------------------------------- what a step keeps

  lemma RemovedSound(db: Db, u: string)
    requires Sound(db)
    ensures Sound(Removed(db, u))
  {
    var r := Removed(db, u);
    forall k, l ensures !Rival(r, k, l) {
      assert !Rival(db, k, l);
    }
  }

  lemma RenamedSound(db: Db, was: string, name: string)
    requires Sound(db) && was in db.users && (name == was || name !in db.users)
    ensures Sound(Renamed(db, was, name))
  {
    var r := Renamed(db, was, name);
    forall k, l ensures !Rival(r, k, l) {
      if k in r.ids && l in r.ids {
        var a :| a in db.ids && Moved(a, was, name) == k;
        var b :| b in db.ids && Moved(b, was, name) == l;
        assert !Rival(db, a, b);
      }
    }
  }

  lemma SlotSound(db: Db, k: Slot, row: Identity)
    requires Sound(db) && k.1 in db.users && row.subject != Some("")
    requires row.subject.Some? ==> Unclaimed(db, k.0, row.subject.value)
    ensures Sound(db.(ids := db.ids[k := row]))
  {
    var r := db.(ids := db.ids[k := row]);
    forall a, b ensures !Rival(r, a, b) {
      assert !Rival(db, a, b);
    }
  }

  lemma SameSubjectsSound(db: Db, r: Db)
    requires Sound(db) && db.users.Keys <= r.users.Keys && r.ids.Keys <= db.ids.Keys
    requires forall k :: k in r.ids ==> r.ids[k].subject == db.ids[k].subject
    requires forall id :: id in r.keys ==> r.keys[id].owner in r.users
    ensures Sound(r)
  {
    forall a, b ensures !Rival(r, a, b) {
      assert !Rival(db, a, b);
    }
  }

  lemma SameIdsSound(db: Db, r: Db)
    requires Sound(db) && r.ids == db.ids && db.users.Keys <= r.users.Keys
    requires forall id :: id in r.keys ==> r.keys[id].owner in r.users
    ensures Sound(r)
  {
    SameSubjectsSound(db, r);
  }

  lemma LinkSound(db: Db, op: Op)
    requires Sound(db) && op.Link?
    ensures Sound(Step(db, op))
  {
    if Step(db, op) != db {
      SlotSound(db, (op.provider, op.user), Identity(Some(op.subject), op.email, op.display, op.at));
    }
  }

  lemma PrelinkSound(db: Db, op: Op)
    requires Sound(db) && op.Prelink?
    ensures Sound(Step(db, op))
  {
    var slot := (op.provider, op.user);
    var row := if slot in db.ids then db.ids[slot] else Identity(None, None, None, op.at);
    if Step(db, op) != db {
      SlotSound(db, slot, row.(email := Some(op.address), linkedAt := op.at));
    }
  }

  lemma ClaimSound(db: Db, op: Op)
    requires Sound(db) && op.Claim?
    ensures Sound(Step(db, op))
  {
    var slot := (op.provider, op.chosen);
    if Step(db, op) != db {
      SlotSound(db, slot, Identity(Some(op.subject), Some(op.address), op.display, db.ids[slot].linkedAt));
    }
  }

  /** Every operation keeps the foreign keys and the uniqueness of subjects. */
  lemma StepSound(db: Db, op: Op)
    requires Sound(db)
    ensures Sound(Step(db, op))
  {
    match op
    case RemoveUser(u) => RemovedSound(db, u);
    case Rename(u, name) =>
      if u in db.users && (name == u || name !in db.users) {
        RenamedSound(db, u, name);
      }
    case Link(_, _, _, _, _, _) => LinkSound(db, op);
    case Prelink(_, _, _, _) => PrelinkSound(db, op);
    case Claim(_, _, _, _, _) => ClaimSound(db, op);
    case Touch(_, _, _, _) => SameSubjectsSound(db, Step(db, op));
    case Unlink(_, _) => SameSubjectsSound(db, Step(db, op));
    case _ => SameIdsSound(db, Step(db, op));
  }

  /** And none takes the last administrator away. */
  lemma StepKeepsAdmin(db: Db, op: Op)
    requires Sound(db) && HasAdmin(db)
    ensures HasAdmin(Step(db, op))
  {
    var r := Step(db, op);
    if (op.RemoveUser? || op.SetRole?) && r != db && IsAdmin(db, op.user) {
      if op.SetRole? && op.role == Admin {
        assert IsAdmin(r, op.user);
      } else {
        var v :| v in db.users && IsAdmin(db, v) && v != op.user;
        assert IsAdmin(r, v);
      }
    } else {
      var u :| IsAdmin(db, u);
      assert IsAdmin(r, if op.Rename? && op.user == u && r != db then op.name else u);
    }
  }

  /** What an account is called after an operation. */
  function NameAfter(db: Db, op: Op, u: string): string {
    if op.Rename? && op.user == u && u in db.users && op.name !in db.users then op.name else u
  }

  /** The operations meant to change a stored credential: a password reset for anyone, a
      new sentinel only where there is no password. */
  ghost predicate Rekeys(db: Db, op: Op, u: string) {
    ((op.AddUser? || op.SetPassword?) && op.user == u) ||
    (op.Rotate? && op.user == u && u in db.users && db.users[u].secret.Sentinel?)
  }

  /** An account lives until it is removed; its role changes only by a role change and its
      credential only by one of the above: in particular a password reset never touches
      the role, and a sign-in never touches a password. */
  lemma AccountStays(db: Db, op: Op, u: string)
    requires Sound(db) && u in db.users
    ensures var r, name := Step(db, op), NameAfter(db, op, u);
            (name in r.users <==> op != RemoveUser(u) || LastAdmin(db, u)) &&
            (name in r.users && !(op.SetRole? && op.user == u) ==> r.users[name].role == db.users[u].role) &&
            (name in r.users && !Rekeys(db, op, u) ==> r.users[name].secret == db.users[u].secret)
  {
    match op
    case Rename(was, name) =>
    case RemoveUser(gone) =>
    case SetRole(_, _) =>
    case _ =>
  }

  /** No operation but the three that create accounts, or a renaming, brings a name to life. */
  lemma AccountsComeFrom(db: Db, op: Op, u: string)
    requires Sound(db) && u in Step(db, op).users && u !in db.users
    ensures ((op.AddUser? || op.AddIdentityUser?) && op.user == u) ||
            (op.Rename? && op.name == u && op.user in db.users)
  {
  }

  /** A key stays with its owner, through renames, until it or the owner is removed. */
  lemma KeyStays(db: Db, op: Op, id: string)
    requires Sound(db) && id in db.keys
    ensures var r, key := Step(db, op), db.keys[id];
            (id in r.keys <==>
               !(op == RemoveUser(key.owner) && !LastAdmin(db, key.owner)) &&
               !(op.RemoveKey? && op.id == id && (op.owner == None || op.owner == Some(key.owner)))) &&
            (id in r.keys ==> r.keys[id] == key.(owner := NameAfter(db, op, key.owner)))
  {
  }

  // ------------------------------------------------------------- whole runs

  ghost function Run(db: Db, ops: seq<Op>): (r: Db)
    requires Sound(db)
    ensures Sound(r)
  {
    if ops == [] then db else
    var before := Run(db, ops[..|ops| - 1]);
    StepSound(before, ops[|ops| - 1]);
    Step(before, ops[|ops| - 1])
  }

  /** Once an administrator exists, one always does. */
  lemma {:induction false} AdminPersists(db: Db, ops: seq<Op>)
    requires Sound(db) && HasAdmin(db)
    ensures HasAdmin(Run(db, ops))
  {
    if ops == [] {
    } else {
      AdminPersists(db, ops[..|ops| - 1]);
      StepKeepsAdmin(Run(db, ops[..|ops| - 1]), ops[|ops| - 1]);
    }
  }

  /** The two operations that can take an administrator away. */
  predicate Drops(op: Op) {
    op.RemoveUser? || (op.SetRole? && op.role != Admin)
  }

  /** The statement that follows their guard. */
  function Unguarded(db: Db, op: Op): Db
    requires Drops(op)
  {
    match op
    case RemoveUser(u) => Removed(db, u)
    case SetRole(u, role) =>
      if u in db.users then db.(users := db.users[u := db.users[u].(role := role)]) else db
    case _ => db
  }

  lemma UnguardedAdmins(db: Db, op: Op, v: string)
    requires Drops(op)
    ensures IsAdmin(Unguarded(db, op), v) <==> IsAdmin(db, v) && v != op.user
  {
  }

  /** Guard and write are two statements, and the command line is a process of its own
      beside the web process.  When two of these overlap, for two administrators, both
      guards pass, and no administrator is left exactly when those two were all there
      were: the invariant rests on each operation being one step. */
  lemma OverlappingDrops(db: Db, x: Op, y: Op)
    requires Drops(x) && Drops(y) && x.user != y.user && IsAdmin(db, x.user) && IsAdmin(db, y.user)
    ensures !LastAdmin(db, x.user) && !LastAdmin(db, y.user)
    ensures !HasAdmin(Unguarded(Unguarded(db, x), y)) <==> Admins(db) == {x.user, y.user}
  {
    var end := Unguarded(Unguarded(db, x), y);
    forall v ensures IsAdmin(end, v) <==> v in Admins(db) && v != x.user && v != y.user {
      UnguardedAdmins(db, x, v);
      UnguardedAdmins(Unguarded(db, x), y, v);
    }
    assert x.user in Admins(db) && y.user in Admins(db);
    if Admins(db) != {x.user, y.user} {
      var v :| v in Admins(db) && v != x.user && v != y.user;
      assert IsAdmin(end, v);
    }
  }

  /** Two administrators, each removed (or demoted) while the other is. */
  lemma RacingRemovals()
    ensures exists db: Db, a, b ::
              Sound(db) && HasAdmin(db) && a != b && a in db.users && b in db.users &&
              !LastAdmin(db, a) && !LastAdmin(db, b) && !HasAdmin(Removed(Removed(db, a), b)) &&
              !HasAdmin(Unguarded(Unguarded(db, SetRole(a, Viewer)), SetRole(b, Viewer)))
  {
    var admin := User(Sentinel(0), Admin);
    var db := Db(map["a" := admin, "b" := admin], map[], map[]);
    assert IsAdmin(db, "a") && IsAdmin(db, "b");
    assert Admins(db) == {"a", "b"};
    OverlappingDrops(db, RemoveUser("a"), RemoveUser("b"));
    OverlappingDrops(db, SetRole("a", Viewer), SetRole("b", Viewer));
    assert Unguarded(Unguarded(db, RemoveUser("a")), RemoveUser("b")) == Removed(Removed(db, "a"), "b");
  }

  /** The operations that end a claim: unlinking it, or removing the account. */
  ghost predicate Severs(db: Db, op: Op, p: string, u: string) {
    op == Unlink(u, p) || (op == RemoveUser(u) && !LastAdmin(db, u))
  }

  /** A claimed subject stays with its account, through renames, unless severed, and no
      other operation can move, change or drop it. */
  lemma ClaimStays(db: Db, op: Op, p: string, s: string, u: string)
    requires Sound(db) && Claimed(db, p, s, u)
    ensures !Severs(db, op, p, u) ==> Claimed(Step(db, op), p, s, NameAfter(db, op, u))
    ensures Severs(db, op, p, u) ==> Unclaimed(Step(db, op), p, s)
  {
    if Severs(db, op, p, u) {
      Unrivalled(db, p, s, u);
    } else if op.Rename? && op.user in db.users && op.name !in db.users {
      assert Moved((p, u), op.user, op.name) == (p, NameAfter(db, op, u));
    }
  }

  lemma Unrivalled(db: Db, p: string, s: string, u: string)
    requires Sound(db) && Claimed(db, p, s, u)
    ensures forall k :: k in db.ids && k.0 == p && db.ids[k].subject == Some(s) ==> k.1 == u
  {
    forall k | k in db.ids && k.0 == p && db.ids[k].subject == Some(s) ensures k.1 == u {
      assert !Rival(db, k, (p, u));
    }
  }

  ghost function NameThrough(db: Db, ops: seq<Op>, u: string): string
    requires Sound(db)
  {
    if ops == [] then u else
    NameAfter(Run(db, ops[..|ops| - 1]), ops[|ops| - 1], NameThrough(db, ops[..|ops| - 1], u))
  }

  ghost predicate Unbroken(db: Db, ops: seq<Op>, p: string, u: string)
    requires Sound(db)
  {
    ops == [] ||
    (Unbroken(db, ops[..|ops| - 1], p, u) &&
     !Severs(Run(db, ops[..|ops| - 1]), ops[|ops| - 1], p, NameThrough(db, ops[..|ops| - 1], u)))
  }

  /** Over any run that neither unlinks the identity nor removes the account, the subject
      keeps opening that account, under whatever name it has by then, and no other. */
  lemma {:induction false} ClaimPersists(db: Db, ops: seq<Op>, p: string, s: string, u: string)
    requires Sound(db) && Claimed(db, p, s, u) && Unbroken(db, ops, p, u)
    ensures forall v :: Claimed(Run(db, ops), p, s, v) <==> v == NameThrough(db, ops, u)
  {
    if ops == [] {
      Unrivalled(db, p, s, u);
      assert forall v :: Claimed(db, p, s, v) ==> (p, v) in db.ids && (p, v).1 == u;
    } else {
      var init, op := ops[..|ops| - 1], ops[|ops| - 1];
      ClaimPersists(db, init, p, s, u);
      var v := NameThrough(db, init, u);
      assert Claimed(Run(db, init), p, s, v);
      ClaimStays(Run(db, init), op, p, s, v);
      Unrivalled(Run(db, ops), p, s, NameThrough(db, ops, u));
      assert forall w :: Claimed(Run(db, ops), p, s, w) ==> (p, w).1 == NameThrough(db, ops, u);
    }
  }

  // ----------------------------------------------- following a new account

  /** The account of this name still holds the sentinel it was created with. */
  ghost predicate Marked(db: Db, u: string, serial: int) {
    u in db.users && db.users[u].secret == Sentinel(serial)
  }

  ghost predicate OnlyMarked(db: Db, u: string, serial: int) {
    forall w :: Marked(db, w, serial) <==> w == u
  }

  predicate Mints(op: Op, serial: int) {
    (op.AddIdentityUser? || op.Rotate?) && op.serial == serial
  }

  /** The operation neither removes the account of this name nor sets its credential. */
  ghost predicate Spares(db: Db, op: Op, u: string) {
    !(op == RemoveUser(u) && !LastAdmin(db, u)) && !((op.AddUser? || op.SetPassword? || op.Rotate?) && op.user == u)
  }

  /** None of the operations does, whatever the account is called by then. */
  ghost predicate Untouched(db: Db, ops: seq<Op>, u: string)
    requires Sound(db)
  {
    ops == [] ||
    (Untouched(db, ops[..|ops| - 1], u) &&
     Spares(Run(db, ops[..|ops| - 1]), ops[|ops| - 1], NameThrough(db, ops[..|ops| - 1], u)))
  }

  /** The name still means the account as it was created. */
  ghost predicate AsCreated(db: Db, ops: seq<Op>, u: string)
    requires Sound(db)
  {
    Untouched(db, ops, u) && NameThrough(db, ops, u) == u
  }

  lemma MarkStep(db: Db, op: Op, u: string, serial: int, live: bool, w: string)
    requires Sound(db) && !Mints(op, serial) && forall x :: Marked(db, x, serial) <==> live && x == u
    ensures Marked(Step(db, op), w, serial) <==> live && Spares(db, op, u) && w == NameAfter(db, op, u)
  {
    assert Marked(db, w, serial) <==> live && w == u;
    assert Marked(db, u, serial) <==> live;
    if op.Rename? {
      assert Marked(db, op.user, serial) <==> live && op.user == u;
    }
  }

  /** With a sentinel of its own, an account is where its name went, as long as it is
      untouched, and nowhere else. */
  lemma {:induction false} MarkFollows(db: Db, ops: seq<Op>, u: string, serial: int)
    requires Sound(db) && OnlyMarked(db, u, serial)
    requires forall i :: 0 <= i < |ops| ==> !Mints(ops[i], serial)
    ensures forall w :: Marked(Run(db, ops), w, serial) <==> Untouched(db, ops, u) && w == NameThrough(db, ops, u)
  {
    if ops == [] {
    } else {
      var init, op := ops[..|ops| - 1], ops[|ops| - 1];
      MarkFollows(db, init, u, serial);
      forall w ensures Marked(Run(db, ops), w, serial) <==> Untouched(db, ops, u) && w == NameThrough(db, ops, u) {
        MarkStep(Run(db, init), op, NameThrough(db, init, u), serial, Untouched(db, init, u), w);
      }
    }
  }

  /** What the callers of a renaming and of a password change check first: the account's
      present password. */
  ghost predicate Offered(db: Db, op: Op) {
    (op.Rename? || op.SetPassword?) && op.user in db.users ==> db.users[op.user].secret.Password?
  }

  ghost predicate AllOffered(db: Db, ops: seq<Op>)
    requires Sound(db)
  {
    ops == [] ||
    (AllOffered(db, ops[..|ops| - 1]) && Offered(Run(db, ops[..|ops| - 1]), ops[|ops| - 1]))
  }

  /** None of the operations removes what has this name, gives it a password or rotates
      its sentinel. */
  ghost predicate NameSpared(db: Db, ops: seq<Op>, u: string)
    requires Sound(db)
  {
    ops == [] ||
    (NameSpared(db, ops[..|ops| - 1], u) && Spares(Run(db, ops[..|ops| - 1]), ops[|ops| - 1], u))
  }

  /** So for operations the callers can produce the name means the account as created
      exactly when each of them spares that name. */
  lemma {:induction false} CallersSpare(db: Db, ops: seq<Op>, u: string, serial: int)
    requires Sound(db) && OnlyMarked(db, u, serial) && AllOffered(db, ops)
    requires forall i :: 0 <= i < |ops| ==> !Mints(ops[i], serial)
    ensures AsCreated(db, ops, u) <==> NameSpared(db, ops, u)
    ensures Untouched(db, ops, u) ==> NameThrough(db, ops, u) == u
  {
    if ops == [] {
    } else {
      var init := ops[..|ops| - 1];
      CallersSpare(db, init, u, serial);
      MarkFollows(db, init, u, serial);
      assert Untouched(db, init, u) ==> Marked(Run(db, init), u, serial);
    }
  }

  // -------------------------------------------------------------- the store

  function Admins(db: Db): set<string> {
    set u | u in db.users && IsAdmin(db, u)
  }

  lemma CountFindsLast(db: Db, u: string)
    requires IsAdmin(db, u)
    ensures |Admins(db)| <= 1 <==> LastAdmin(db, u)
  {
    if LastAdmin(db, u) {
      assert Admins(db) == {u};
    } else {
      var v :| v in db.users && IsAdmin(db, v) && v != u;
      assert {u, v} <= Admins(db);
      SubsetCount({u, v}, Admins(db));
    }
  }

  lemma {:induction false} SubsetCount(a: set<string>, b: set<string>)
    requires a <= b
    ensures |a| <= |b|
  {
    if a == {} {
    } else {
      var x :| x in a;
      SubsetCount(a - {x}, b - {x});
    }
  }

  /** Among the slots there is one linked earliest. */
  lemma {:induction false} EarliestExists(db: Db, slots: set<Slot>) returns (k: Slot)
    requires slots != {} && forall l :: l in slots ==> l in db.ids
    ensures k in slots && forall l :: l in slots ==> db.ids[k].linkedAt <= db.ids[l].linkedAt
    decreases |slots|
  {
    var x :| x in slots;
    k := x;
    if slots != {x} {
      var y := EarliestExists(db, slots - {x});
      k := if db.ids[x].linkedAt <= db.ids[y].linkedAt then x else y;
      forall l | l in slots ensures db.ids[k].linkedAt <= db.ids[l].linkedAt {
        assert l == x || l in slots - {x};
      }
    }
  }

  ghost predicate StepAt(states: seq<Db>, log: seq<Op>, i: nat)
    requires i < |log| && i + 1 < |states|
  {
    Sound(states[i]) && states[i + 1] == Step(states[i], log[i])
  }

  /** The states a store went through, one operation after the other. */
  ghost predicate Trace(states: seq<Db>, log: seq<Op>) {
    |states| == |log| + 1 && (forall i :: 0 <= i < |log| ==> StepAt(states, log, i)) && Sound(states[|log|])
  }

  lemma TraceAppend(states: seq<Db>, log: seq<Op>, op: Op)
    requires Trace(states, log)
    ensures Trace(states + [Step(states[|log|], op)], log + [op])
  {
    assert forall i :: 0 <= i < |log| ==> StepAt(states, log, i);
    StepSound(states[|log|], op);
    var more, longer := states + [Step(states[|log|], op)], log + [op];
    forall i | 0 <= i < |longer| ensures StepAt(more, longer, i) {
      if i < |log| {
        SameStep(states, log, more, longer, i);
      }
    }
  }

  lemma SameStep(states: seq<Db>, log: seq<Op>, more: seq<Db>, longer: seq<Op>, i: nat)
    requires i < |log| <= |longer| && i + 1 < |states| <= |more| && StepAt(states, log, i)
    requires more[i] == states[i] && more[i + 1] == states[i + 1] && longer[i] == log[i]
    ensures StepAt(more, longer, i)
  {
  }

  /** Which are the states of the runs above. */
  lemma {:induction false} TraceIsRun(states: seq<Db>, log: seq<Op>, i: nat)
    requires Trace(states, log) && i <= |log|
    ensures Sound(states[0]) && states[i] == Run(states[0], log[..i])
  {
    if i > 0 {
      TraceIsRun(states, log, i - 1);
      assert StepAt(states, log, i - 1);
      assert log[..i][..i - 1] == log[..i - 1];
    } else {
      assert |log| > 0 ==> StepAt(states, log, 0);
    }
  }

  lemma RunAppend(db: Db, ops: seq<Op>, op: Op)
    requires Sound(db)
    ensures Run(db, ops + [op]) == Step(Run(db, ops), op)
  {
    assert (ops + [op])[..|ops|] == ops;
  }

  lemma StretchAppend<T>(s: seq<T>, from: nat, i: nat)
    requires from < i <= |s|
    ensures s[from..i] == s[from..i - 1] + [s[i - 1]]
  {
  }

  lemma TraceSound(states: seq<Db>, log: seq<Op>, i: nat)
    requires Trace(states, log) && i <= |log|
    ensures Sound(states[i])
  {
    assert i < |log| ==> StepAt(states, log, i);
  }

  lemma StretchRuns(states: seq<Db>, log: seq<Op>, from: nat, i: nat)
    requires Trace(states, log) && from < i <= |log| && Sound(states[from])
    requires states[i - 1] == Run(states[from], log[from..i - 1])
    ensures states[i] == Run(states[from], log[from..i])
  {
    assert StepAt(states, log, i - 1);
    RunAppend(states[from], log[from..i - 1], log[i - 1]);
    StretchAppend(log, from, i);
  }

  /** A stretch of them is a run too. */
  lemma {:induction false} TraceStretch(states: seq<Db>, log: seq<Op>, from: nat, i: nat)
    requires Trace(states, log) && from <= i <= |log|
    ensures Sound(states[from]) && states[i] == Run(states[from], log[from..i])
    decreases i
  {
    TraceSound(states, log, from);
    if i == from {
    } else {
      TraceStretch(states, log, from, i - 1);
      StretchRuns(states, log, from, i);
    }
  }

  /** Everything a store went through: its states, the operations between them, and
      which of those were not the doing of the request being followed. */
  datatype Past = Past(states: seq<Db>, log: seq<Op>, others: set<nat>)

  ghost predicate Lived(p: Past) {
    Trace(p.states, p.log) && forall i :: i in p.others ==> i < |p.log|
  }

  /** Time has passed: everything recorded is still there. */
  ghost predicate Extends(p: Past, q: Past) {
    Lived(q) && p.states <= q.states && p.log <= q.log && p.others <= q.others &&
    forall i :: i in q.others && i < |p.log| ==> i in p.others
  }

  /** One operation of the request itself. */
  ghost function Longer(p: Past, op: Op): Past
    requires Lived(p)
  {
    Past(p.states + [Step(p.states[|p.log|], op)], p.log + [op], p.others)
  }

  lemma LongerLives(p: Past, op: Op)
    requires Lived(p)
    ensures Lived(Longer(p, op)) && Extends(p, Longer(p, op))
  {
    TraceAppend(p.states, p.log, op);
  }

  // What a write leaves, table by table.

  ghost predicate OtherAdmin(db: Db, u: string) {
    exists v :: v != u && v in db.users && db.users[v].role == Admin
  }

  /** The account is gone with its identities and keys; everything else is as it was. */
  ghost predicate Gone(was: Db, now: Db, u: string) {
    && now.users == was.users - {u}
    && (forall k :: k in now.ids <==> k in was.ids && k.1 != u)
    && (forall k :: k in now.ids ==> now.ids[k] == was.ids[k])
    && (forall id :: id in now.keys <==> id in was.keys && was.keys[id].owner != u)
    && (forall id :: id in now.keys ==> now.keys[id] == was.keys[id])
  }

  /** Only this account has changed, or come to be. */
  ghost predicate UserSet(was: Db, now: Db, u: string, secret: Secret, role: Role) {
    now == was.(users := was.users[u := User(secret, role)])
  }

  /** The account goes on under another name, with its identities and keys. */
  ghost predicate Called(was: Db, now: Db, u: string, name: string)
    requires u in was.users
  {
    && now.users == (was.users - {u})[name := was.users[u]]
    && (forall p, v :: (p, v) in now.ids <==> if v == name then (p, u) in was.ids else v != u && (p, v) in was.ids)
    && (forall p, v :: (p, v) in now.ids ==> now.ids[(p, v)] == was.ids[(p, if v == name then u else v)])
    && now.keys.Keys == was.keys.Keys
    && (forall id :: id in was.keys ==>
          now.keys[id].role == was.keys[id].role &&
          now.keys[id].owner == if was.keys[id].owner == u then name else was.keys[id].owner)
  }

  /** Every row of the subject has what was told, where something was; no other row and no
      other column changes. */
  ghost predicate Freshened(was: Db, now: Db, p: string, s: string, email: Option<string>, display: Option<string>) {
    && now.users == was.users && now.keys == was.keys && now.ids.Keys == was.ids.Keys
    && forall k :: k in was.ids ==>
         var row, next := was.ids[k], now.ids[k];
         if k.0 == p && row.subject == Some(s) then
           && next.subject == row.subject && next.linkedAt == row.linkedAt
           && next.email == (if email.Some? then email else row.email)
           && next.display == if display.Some? then display else row.display
         else next == row
  }

  lemma RemovedGone(db: Db, u: string)
    ensures Gone(db, Removed(db, u), u)
  {
  }

  lemma RenamedCalled(db: Db, u: string, name: string)
    requires Sound(db) && u in db.users && (name == u || name !in db.users)
    ensures Called(db, Renamed(db, u, name), u, name)
  {
    var r := Renamed(db, u, name);
    forall p, v ensures (p, v) in r.ids <==> if v == name then (p, u) in db.ids else v != u && (p, v) in db.ids {
      if v == name && (p, u) in db.ids {
        assert Moved((p, u), u, name) == (p, v);
      } else if v != u && (p, v) in db.ids {
        assert Moved((p, v), u, name) == (p, v);
      }
    }
    forall p, v | (p, v) in r.ids ensures r.ids[(p, v)] == db.ids[(p, if v == name then u else v)] {
      var k :| k in db.ids && Moved(k, u, name) == (p, v) && r.ids[(p, v)] == db.ids[k];
      assert k == (p, if v == name then u else v);
    }
  }

  class History {
    var db: Db
    ghost var past: Past

    ghost predicate Valid()
      reads this
    {
      Lived(past) && db == past.states[|past.log|]
    }

    constructor (db: Db)
      requires Sound(db)
      ensures Valid() && this.db == db && past == Past([db], [], {})
    {
      this.db, past := db, Past([db], [], {});
    }

    twostate predicate Grew()
      reads this
    {
      Valid() && Extends(old(past), past)
    }

    /** Nobody else wrote anything. */
    twostate predicate Alone()
      reads this
    {
      past.others == old(past).others
    }

    /** What every operation below promises: one entry more on the record, and so (the
        states being those of the log) one step. */
    twostate predicate Did(op: Op)
      reads this
    {
      Grew() && past.log == old(past).log + [op] && past.others == old(past).others
    }

    /** The record of the step being taken. */
    ghost method Record(op: Op)
      requires Valid()
      modifies this`past
      ensures past == Longer(old(past), op) && Extends(old(past), past)
    {
      LongerLives(past, op);
      past := Longer(past, op);
    }

    /** `remove_user`. */
    method RemoveUser(u: string) returns (removed: bool)
      requires Valid()
      modifies this
      ensures Did(Op.RemoveUser(u)) && (removed <==> u in old(db).users && u !in db.users)
      ensures removed <==> u in old(db).users && (old(db).users[u].role == Admin ==> OtherAdmin(old(db), u))
      ensures if removed then Gone(old(db), db, u) else db == old(db)
    {
      Record(Op.RemoveUser(u));
      if u !in db.users {
        return false;
      }
      if db.users[u].role == Admin {
        CountFindsLast(db, u);
        if |Admins(db)| <= 1 {
          return false;
        }
      }
      RemovedGone(db, u);
      db := Removed(db, u);
      return true;
    }

    /** `set_role`. */
    method SetRole(u: string, role: Role) returns (ok: bool)
      requires Valid()
      modifies this
      ensures Did(Op.SetRole(u, role)) && (ok <==> IsRole(db, u, role))
      ensures ok <==>
                u in old(db).users && (old(db).users[u].role == Admin && role != Admin ==> OtherAdmin(old(db), u))
      ensures if ok then UserSet(old(db), db, u, old(db).users[u].secret, role) else db == old(db)
    {
      Record(Op.SetRole(u, role));
      if u !in db.users {
        return false;
      }
      if db.users[u].role == Admin && role != Admin {
        CountFindsLast(db, u);
        if |Admins(db)| <= 1 {
          return false;
        }
      }
      db := db.(users := db.users[u := db.users[u].(role := role)]);
      return true;
    }

    /** `rename_user`: the UNIQUE constraint refuses a name in use. */
    method Rename(u: string, name: string) returns (ok: bool)
      requires Valid()
      modifies this
      ensures Did(Op.Rename(u, name))
      ensures ok <==> u in old(db).users && (name == u || name !in old(db).users)
      ensures if ok then Called(old(db), db, u, name) else db == old(db)
    {
      ok := u in db.users && (name == u || name !in db.users);
      ghost var next := Step(db, Op.Rename(u, name));
      if ok {
        var renamed := Renamed(db, u, name);
        assert renamed == next;
        RenamedCalled(db, u, name);
        Record(Op.Rename(u, name));
        db := renamed;
      } else {
        Record(Op.Rename(u, name));
      }
    }

    /** `identity_user`: the account the subject opens. */
    method IdentityUser(p: string, s: string) returns (u: Option<string>)
      requires Valid()
      ensures u.Some? ==> Claimed(db, p, s, u.value)
      ensures u.None? <==> Unclaimed(db, p, s)
      ensures forall v :: Claimed(db, p, s, v) ==> u == Some(v)
    {
      var rows := set k | k in db.ids && k.0 == p && db.ids[k].subject == Some(s);
      if rows == {} {
        forall k | k in db.ids ensures !(k.0 == p && db.ids[k].subject == Some(s)) {
          assert k !in rows;
        }
        forall v ensures !Claimed(db, p, s, v) {
          assert (p, v) !in rows;
        }
        return None;
      }
      var k :| k in rows;
      Unrivalled(db, p, s, k.1);
      forall v | Claimed(db, p, s, v) ensures v == k.1 {
        assert (p, v) in db.ids && (p, v).1 == v;
      }
      return Some(k.1);
    }

    /** `link_identity`. */
    method LinkIdentity(u: string, p: string, s: string, email: Option<string>, display: Option<string>, at: real)
      returns (ok: bool)
      requires Valid()
      modifies this
      ensures Did(Link(u, p, s, email, display, at))
      ensures ok <==> s != "" && u in old(db).users && (p, u) !in old(db).ids && Unclaimed(old(db), p, s)
      ensures ok ==> Claimed(db, p, s, u)
      ensures db.users == old(db).users
      ensures db == if ok then old(db).(ids := old(db).ids[(p, u) := Identity(Some(s), email, display, at)])
                    else old(db)
    {
      if s == "" || u !in db.users {
        Record(Link(u, p, s, email, display, at));
        return false;
      }
      var other := IdentityUser(p, s);
      Record(Link(u, p, s, email, display, at));
      if (p, u) in db.ids || other.Some? {
        return false;
      }
      db := db.(ids := db.ids[(p, u) := Identity(Some(s), email, display, at)]);
      return true;
    }

    /** `prelink_identity`, the address already stripped and lower-cased. */
    method PrelinkIdentity(u: string, p: string, address: string, at: real) returns (ok: bool)
      requires Valid()
      modifies this
      ensures Did(Prelink(u, p, address, at)) && (ok ==> Pending(db, p, address, u)) && (!ok ==> db == old(db))
      ensures ok <==>
                address != "" && u in old(db).users &&
                ((p, u) in old(db).ids ==> old(db).ids[(p, u)].subject == None)
      ensures ok ==>
                var kept := if (p, u) in old(db).ids then old(db).ids[(p, u)].display else None;
                db == old(db).(ids := old(db).ids[(p, u) := Identity(None, Some(address), kept, at)])
    {
      Record(Prelink(u, p, address, at));
      if address == "" || u !in db.users {
        return false;
      }
      if (p, u) in db.ids && db.ids[(p, u)].subject.Some? {
        return false;
      }
      var row := if (p, u) in db.ids then db.ids[(p, u)] else Identity(None, None, None, at);
      db := db.(ids := db.ids[(p, u) := row.(email := Some(address), linkedAt := at)]);
      return true;
    }

    /** `pending_identity`: the oldest pre-link of the address. */
    method PendingIdentity(p: string, address: string) returns (u: Option<string>)
      ensures u.Some? ==> address != "" && FirstPending(db, p, address, u.value)
      ensures u.None? ==> address == "" || forall v :: !Pending(db, p, address, v)
      ensures u.Some? ==> OldestPrelink(db, p, address, u.value)
      ensures u.None? <==> address == "" || forall v :: !Prelinked(db, p, address, v)
    {
      forall v ensures (Pending(db, p, address, v) <==> Prelinked(db, p, address, v)) &&
                       (FirstPending(db, p, address, v) <==> OldestPrelink(db, p, address, v)) {
        PendingMeaning(db, p, address, v);
      }
      var rows := set k | k in db.ids && k.0 == p && Pending(db, p, address, k.1);
      if address == "" {
        return None;
      }
      if rows == {} {
        forall v ensures !Pending(db, p, address, v) {
          assert (p, v) !in rows;
        }
        return None;
      }
      ghost var first := EarliestExists(db, rows);
      assert FirstPending(db, p, address, first.1);
      var k :| k in rows && FirstPending(db, p, address, k.1);
      return Some(k.1);
    }

    /** `claim_identity`. */
    method ClaimIdentity(p: string, address: string, s: string, display: Option<string>) returns (u: Option<string>)
      requires Valid()
      modifies this
      ensures Did(Claim(p, address, s, display, if u.Some? then u.value else ""))
      ensures u.Some? ==> FirstPending(old(db), p, address, u.value) && OldestPrelink(old(db), p, address, u.value)
      ensures u.Some? ==> Claimed(db, p, s, u.value)
      ensures u.None? <==>
                address == "" || s == "" || !Unclaimed(old(db), p, s) || forall w :: !Pending(old(db), p, address, w)
      ensures u.None? ==> db == old(db)
      ensures u.Some? ==>
                var row := Identity(Some(s), Some(address), display, old(db).ids[(p, u.value)].linkedAt);
                db == old(db).(ids := old(db).ids[(p, u.value) := row])
    {
      var taken := IdentityUser(p, s);
      if address == "" || s == "" || taken.Some? {
        Record(Claim(p, address, s, display, ""));
        return None;
      }
      u := PendingIdentity(p, address);
      Record(Claim(p, address, s, display, if u.Some? then u.value else ""));
      if u.Some? {
        var at := db.ids[(p, u.value)].linkedAt;
        db := db.(ids := db.ids[(p, u.value) := Identity(Some(s), Some(address), display, at)]);
      }
    }

    /** `add_identity_user`: never an upsert. */
    method AddIdentityUser(u: string, role: Role, serial: int) returns (ok: bool)
      requires Valid()
      modifies this
      ensures Did(Op.AddIdentityUser(u, role, serial)) && (ok <==> u !in old(db).users)
      ensures db == if ok then old(db).(users := old(db).users[u := User(Sentinel(serial), role)]) else old(db)
    {
      Record(Op.AddIdentityUser(u, role, serial));
      ok := u !in db.users;
      if ok {
        db := db.(users := db.users[u := User(Sentinel(serial), role)]);
      }
    }

    /** `add_api_key`: the foreign key refuses a stranger, the primary key a collision. */
    method AddApiKey(u: string, id: string, role: Role) returns (ok: bool)
      requires Valid()
      modifies this
      ensures Did(AddKey(u, id, role)) && (ok <==> u in old(db).users && id !in old(db).keys)
      ensures db == if ok then old(db).(keys := old(db).keys[id := ApiKey(u, role)]) else old(db)
    {
      Record(AddKey(u, id, role));
      ok := u in db.users && id !in db.keys;
      if ok {
        db := db.(keys := db.keys[id := ApiKey(u, role)]);
      }
    }

    /** `remove_api_key`: with an owner given, only that owner's. */
    method RemoveApiKey(id: string, owner: Option<string>) returns (ok: bool)
      requires Valid()
      modifies this
      ensures Did(RemoveKey(id, owner))
      ensures ok <==> id in old(db).keys && (owner.Some? ==> old(db).keys[id].owner == owner.value)
      ensures db == if ok then old(db).(keys := old(db).keys - {id}) else old(db)
    {
      Record(RemoveKey(id, owner));
      ok := id in db.keys && (owner.None? || owner.value == db.keys[id].owner);
      if ok {
        db := db.(keys := db.keys - {id});
      }
    }

    /** `touch_identity`: who opens what does not change. */
    method TouchIdentity(p: string, s: string, email: Option<string>, display: Option<string>)
      requires Valid()
      modifies this
      ensures Did(Touch(p, s, email, display)) && db.users == old(db).users
      ensures forall q, r, u :: Claimed(db, q, r, u) <==> Claimed(old(db), q, r, u)
      ensures Freshened(old(db), db, p, s, email, display)
    {
      Record(Touch(p, s, email, display));
      db := Touched(db, p, s, email, display);
    }

    /** `unlink_identity`. */
    method UnlinkIdentity(u: string, p: string) returns (ok: bool)
      requires Valid()
      modifies this
      ensures Did(Unlink(u, p)) && (ok <==> (p, u) in old(db).ids)
      ensures db == old(db).(ids := old(db).ids - {(p, u)})
    {
      ok := (p, u) in db.ids;
      Record(Unlink(u, p));
      db := db.(ids := db.ids - {(p, u)});
    }

    /** `add_user`: a new account as asked for; for one there is already, its password
        alone. */
    method AddUser(u: string, password: string, role: Role)
      requires Valid()
      modifies this
      ensures Did(Op.AddUser(u, password, role))
      ensures UserSet(old(db), db, u, Password(password), if u in old(db).users then old(db).users[u].role else role)
    {
      Record(Op.AddUser(u, password, role));
      if u in db.users {
        db := db.(users := db.users[u := db.users[u].(secret := Password(password))]);
      } else {
        db := db.(users := db.users[u := User(Password(password), role)]);
      }
    }

    /** `set_password`. */
    method SetPassword(u: string, password: string) returns (ok: bool)
      requires Valid()
      modifies this
      ensures Did(Op.SetPassword(u, password)) && (ok <==> u in old(db).users)
      ensures if ok then UserSet(old(db), db, u, Password(password), old(db).users[u].role) else db == old(db)
    {
      Record(Op.SetPassword(u, password));
      ok := u in db.users;
      if ok {
        db := db.(users := db.users[u := db.users[u].(secret := Password(password))]);
      }
    }

    /** `rotate_login_key`: a new sentinel, where there is no password. */
    method RotateLoginKey(u: string, serial: int) returns (ok: bool)
      requires Valid()
      modifies this
      ensures Did(Rotate(u, serial)) && (ok <==> u in old(db).users && old(db).users[u].secret.Sentinel?)
      ensures if ok then UserSet(old(db), db, u, Sentinel(serial), old(db).users[u].role) else db == old(db)
    {
      Record(Rotate(u, serial));
      ok := u in db.users && db.users[u].secret.Sentinel?;
      if ok {
        db := db.(users := db.users[u := db.users[u].(secret := Sentinel(serial))]);
      }
    }

    /** Any of these, done by another request. */
    method Execute(op: Op)
      requires Valid()
      modifies this
      ensures Did(op) && db == Step(old(db), op)
    {
      Record(op);
      db := Step(db, op);
    }

    /** Whatever other requests do between two steps of a sign-in. */
    method Interfere()
      requires Valid()
      modifies this
      ensures Grew() && forall i :: |old(past).log| <= i < |past.log| ==> i in past.others
      ensures Alone() ==> past == old(past) && db == old(db)
    {
      var ops: seq<Op> := *;
      for i := 0 to |ops|
        invariant Grew() && forall j :: |old(past).log| <= j < |past.log| ==> j in past.others
        invariant |past.log| == |old(past).log| ==> past == old(past) && db == old(db)
      {
        ghost var n := |past.log|;
        Execute(ops[i]);
        past := past.(others := past.others + {n});
      }
      assert |past.log| > |old(past).log| ==> |old(past).log| in past.others;
    }
  }

  predicate IsRole(db: Db, u: string, role: Role) {
    u in db.users && db.users[u].role == role
  }

  // ---------------------------------------------------------------- sign-in

  const TRIES: nat := 20

  function Numbered(base: string, n: nat): string {
    base + "-" + Dec(n)
  }

  /** The first free numbered name from number n on. */
  function FirstFree(taken: set<string>, base: string, n: nat): (r: Option<string>)
    ensures r.Some? ==> r.value !in taken &&
                        exists m :: n <= m <= TRIES && r.value == Numbered(base, m) &&
                          forall k :: n <= k < m ==> Numbered(base, k) in taken
    ensures r.None? ==> forall k :: n <= k <= TRIES ==> Numbered(base, k) in taken
    decreases TRIES + 1 - n
  {
    if n > TRIES then None
    else if Numbered(base, n) !in taken then Some(Numbered(base, n))
    else FirstFree(taken, base, n + 1)
  }

  /** The name itself, else the first free numbered one, else a random suffix. */
  function Derived(taken: set<string>, base: string, suffix: string): string {
    if base !in taken then base
    else match FirstFree(taken, base, 2)
         case Some(name) => name
         case None => base + "-" + suffix
  }

  ghost predicate FreeNumber(taken: set<string>, base: string, n: nat) {
    2 <= n <= 20 && base + "-" + Dec(n) !in taken
  }

  /** The lowest of 2 to 20 that makes a free name. */
  ghost predicate LowestFree(taken: set<string>, base: string, n: nat) {
    FreeNumber(taken, base, n) && forall k: nat :: k < n ==> !FreeNumber(taken, base, k)
  }

  ghost predicate NamedAfter(name: string, taken: set<string>, base: string, suffix: string) {
    if base !in taken then name == base
    else if exists n :: FreeNumber(taken, base, n) then
      exists n :: LowestFree(taken, base, n) && name == base + "-" + Dec(n)
    else name == base + "-" + suffix
  }

  ghost predicate NoneBelow(taken: set<string>, base: string, n: nat) {
    forall k: nat :: k < n ==> !FreeNumber(taken, base, k)
  }

  lemma {:induction false} FirstFreeIsLowest(taken: set<string>, base: string, n: nat)
    requires 2 <= n <= 21 && NoneBelow(taken, base, n)
    ensures match FirstFree(taken, base, n)
            case Some(name) => exists m :: LowestFree(taken, base, m) && name == base + "-" + Dec(m)
            case None => NoneBelow(taken, base, 21)
    decreases 21 - n
  {
    if n == 21 {
    } else if base + "-" + Dec(n) !in taken {
      assert LowestFree(taken, base, n);
    } else {
      assert !FreeNumber(taken, base, n);
      FirstFreeIsLowest(taken, base, n + 1);
    }
  }

  lemma DerivedMeaning(taken: set<string>, base: string, suffix: string)
    ensures NamedAfter(Derived(taken, base, suffix), taken, base, suffix)
  {
    FirstFreeIsLowest(taken, base, 2);
  }

  /** `derive_username`, from the cleaned name on. */
  method DeriveUsername(h: History, base: string, suffix: string) returns (name: string)
    ensures name == Derived(h.db.users.Keys, base, suffix)
    ensures NamedAfter(name, h.db.users.Keys, base, suffix)
  {
    DerivedMeaning(h.db.users.Keys, base, suffix);
    if base !in h.db.users {
      return base;
    }
    for n := 2 to TRIES + 1
      invariant FirstFree(h.db.users.Keys, base, 2) == FirstFree(h.db.users.Keys, base, n)
    {
      if Numbered(base, n) !in h.db.users {
        return Numbered(base, n);
      }
    }
    return base + "-" + suffix;
  }

  /** Who the provider says signed in; the address stripped and lower-cased, "" if none. */
  datatype Visitor = Visitor(sub: string, address: string, verified: bool, display: Option<string>, base: string)

  /** The operator's settings; `onList` is whether the address's domain is on the list. */
  datatype Policy = Policy(autoCreate: bool, role: Role, domains: bool, onList: bool)

  predicate DomainAllowed(policy: Policy) {
    policy.domains ==> policy.onList
  }

  predicate MayClaim(v: Visitor, policy: Policy) {
    v.address != "" && v.verified && DomainAllowed(policy)
  }

  predicate MayCreate(v: Visitor, policy: Policy) {
    policy.autoCreate && (policy.domains ==> v.address != "" && v.verified && policy.onList)
  }

  datatype Refusal = EmailUnverified | WrongDomain | NotLinked | LinkedElsewhere | Taken

  datatype Opened = Account(user: string) | Refused(why: Refusal)

  function AddressOf(v: Visitor): Option<string> {
    if v.address == "" then None else Some(v.address)
  }

  /** In one of the states from number `since` on the subject opened this account. */
  ghost predicate Opens(p: Past, since: nat, sub: string, user: string) {
    exists i :: since <= i < |p.states| && Claimed(p.states[i], PROVIDER, sub, user)
  }

  lemma StillOpens(p: Past, q: Past, from: nat, since: nat, sub: string, user: string)
    requires p.states <= q.states && Opens(p, from, sub, user) && since <= from
    ensures Opens(q, since, sub, user)
  {
    var i :| from <= i < |p.states| && Claimed(p.states[i], PROVIDER, sub, user);
    assert q.states[i] == p.states[i];
  }

  // --------------------------------------------------- what a sign-in may write

  ghost predicate Mine(p: Past, i: nat) {
    i < |p.log| && i !in p.others
  }

  /** This request brought the account to life, at step j. */
  ghost predicate CreatedAt(p: Past, j: nat, user: string) {
    Mine(p, j) && j < |p.states| && p.log[j].AddIdentityUser? && p.log[j].user == user &&
    user !in p.states[j].users
  }

  ghost predicate Created(p: Past, since: nat, i: nat, user: string) {
    exists j :: since <= j < i && CreatedAt(p, j, user)
  }

  /** At step k this request's own link of the name to the subject was refused. */
  ghost predicate RefusedAt(p: Past, k: nat, user: string, sub: string) {
    Mine(p, k) && k < |p.states| && p.log[k].Link? && p.log[k].user == user &&
    p.log[k].provider == PROVIDER && p.log[k].subject == sub && !Linkable(p.states[k], user, sub)
  }

  ghost predicate Spurned(p: Past, since: nat, i: nat, user: string, sub: string) {
    exists k :: since <= k < i && RefusedAt(p, k, user, sub)
  }

  /** The address and name are the visitor's own, an empty address being none. */
  ghost predicate Quotes(v: Visitor, email: Option<string>, display: Option<string>) {
    && (email == None <==> v.address == "")
    && (email.Some? ==> email.value == v.address)
    && display == v.display
  }

  /** It claims and creates only as the operator allowed, links only a name under which it
      has itself created an account before, and removes such a name only after its own
      link of it was refused. */
  ghost predicate Within(p: Past, since: nat, i: nat, v: Visitor, policy: Policy)
    requires i < |p.log|
  {
    match p.log[i]
    case Touch(pr, s, email, display) => pr == PROVIDER && s == v.sub && Quotes(v, email, display)
    case Claim(pr, address, s, display, _) =>
      MayClaim(v, policy) && pr == PROVIDER && s == v.sub && address == v.address && display == v.display
    case AddIdentityUser(_, role, _) => MayCreate(v, policy) && role == policy.role
    case Link(u, pr, s, email, display, _) =>
      MayCreate(v, policy) && pr == PROVIDER && s == v.sub && Quotes(v, email, display) && Created(p, since, i, u)
    case RemoveUser(u) => MayCreate(v, policy) && Created(p, since, i, u) && Spurned(p, since, i, u, v.sub)
    case _ => false
  }

  /** Step `from` on; what counts as created is judged from step `since` on. */
  ghost predicate WithinFrom(p: Past, since: nat, from: nat, v: Visitor, policy: Policy) {
    forall i :: from <= i < |p.log| && Mine(p, i) ==> Within(p, since, i, v, policy)
  }

  /** All this request has written since. */
  ghost predicate AllWithin(p: Past, since: nat, v: Visitor, policy: Policy) {
    WithinFrom(p, since, since, v, policy)
  }

  lemma CreatedStays(p: Past, q: Past, since: nat, i: nat, k: nat, user: string)
    requires Extends(p, q) && i <= |p.log| && i <= k && Created(p, since, i, user)
    ensures Created(q, since, k, user)
  {
    var j :| since <= j < i && CreatedAt(p, j, user);
    assert CreatedAt(q, j, user);
  }

  lemma SpurnedStays(p: Past, q: Past, since: nat, i: nat, k: nat, user: string, sub: string)
    requires Extends(p, q) && i <= |p.log| && i <= k && Spurned(p, since, i, user, sub)
    ensures Spurned(q, since, k, user, sub)
  {
    var j :| since <= j < i && RefusedAt(p, j, user, sub);
    assert RefusedAt(q, j, user, sub);
  }

  lemma WithinGrows(p: Past, q: Past, since: nat, from: nat, v: Visitor, policy: Policy)
    requires Lived(p) && Extends(p, q) && WithinFrom(p, since, from, v, policy)
    requires WithinFrom(q, since, |p.log|, v, policy)
    ensures WithinFrom(q, since, from, v, policy)
  {
    forall i | from <= i < |q.log| && Mine(q, i) ensures Within(q, since, i, v, policy) {
      if i < |p.log| {
        assert Mine(p, i) && Within(p, since, i, v, policy) && q.log[i] == p.log[i];
        if p.log[i].Link? || p.log[i].RemoveUser? {
          CreatedStays(p, q, since, i, i, p.log[i].user);
        }
        if p.log[i].RemoveUser? {
          SpurnedStays(p, q, since, i, i, p.log[i].user, v.sub);
        }
      }
    }
  }

  /** Of the steps since, only step k is this request's own. */
  lemma OneWrite(p: Past, since: nat, from: nat, k: nat, v: Visitor, policy: Policy)
    requires k < |p.log| && Within(p, since, k, v, policy)
    requires forall i :: from <= i < |p.log| && i != k ==> i in p.others
    ensures WithinFrom(p, since, from, v, policy)
  {
  }

  /** An earlier start can only have seen more created. */
  lemma WithinEarlier(p: Past, since: nat, later: nat, v: Visitor, policy: Policy)
    requires since <= later && AllWithin(p, later, v, policy)
    ensures WithinFrom(p, since, later, v, policy)
  {
    forall i | later <= i < |p.log| && Mine(p, i) ensures Within(p, since, i, v, policy) {
      assert Within(p, later, i, v, policy);
      if p.log[i].Link? || p.log[i].RemoveUser? {
        var j :| later <= j < i && CreatedAt(p, j, p.log[i].user);
      }
      if p.log[i].RemoveUser? {
        var k :| later <= k < i && RefusedAt(p, k, p.log[i].user, v.sub);
      }
    }
  }

  /** Since step `from` this request has linked the name, or removed it. */
  ghost predicate Dealt(p: Past, from: nat, user: string, sub: string) {
    exists k :: from <= k < |p.log| && (LinkedAt(p, k, user, sub) || (Mine(p, k) && p.log[k] == RemoveUser(user)))
  }

  ghost predicate LinkedAt(p: Past, k: nat, user: string, sub: string) {
    Mine(p, k) && k < |p.states| && p.log[k].Link? && p.log[k].user == user &&
    p.log[k].provider == PROVIDER && p.log[k].subject == sub && Linkable(p.states[k], user, sub)
  }

  lemma DealtStays(p: Past, q: Past, since: nat, from: nat, user: string, sub: string)
    requires Extends(p, q) && since <= from && Dealt(p, from, user, sub)
    ensures Dealt(q, since, user, sub)
  {
    var k :| from <= k < |p.log| && (LinkedAt(p, k, user, sub) || (Mine(p, k) && p.log[k] == RemoveUser(user)));
    assert Mine(q, k) && (LinkedAt(p, k, user, sub) ==> LinkedAt(q, k, user, sub));
  }

  ghost predicate NoNew(p: Past, from: nat) {
    forall i :: from <= i < |p.log| && Mine(p, i) ==> !p.log[i].AddIdentityUser?
  }

  lemma NoNewGrows(p: Past, q: Past, from: nat)
    requires Extends(p, q) && NoNew(p, from) && NoNew(q, |p.log|)
    ensures NoNew(q, from)
  {
    forall i | from <= i < |q.log| && Mine(q, i) ensures !q.log[i].AddIdentityUser? {
      if i < |p.log| {
        assert Mine(p, i) && q.log[i] == p.log[i];
      }
    }
  }

  /** Each name this request has created it has also linked, or removed. */
  ghost predicate NoneLeft(p: Past, from: nat, sub: string) {
    forall j, user :: from <= j && CreatedAt(p, j, user) ==> Dealt(p, j + 1, user, sub)
  }

  lemma NoneLeftGrows(p: Past, q: Past, from: nat, sub: string)
    requires Lived(p) && Extends(p, q) && NoneLeft(p, from, sub) && NoneLeft(q, |p.log|, sub)
    ensures NoneLeft(q, from, sub)
  {
    forall j: nat, user | from <= j && CreatedAt(q, j, user) ensures Dealt(q, j + 1, user, sub) {
      if j < |p.log| {
        assert CreatedAt(p, j, user);
        DealtStays(p, q, j + 1, j + 1, user, sub);
      }
    }
  }

  lemma OneCreated(p: Past, q: Past, j: nat, name: string, sub: string)
    requires Extends(p, q) && |p.log| == j + 1 && CreatedAt(p, j, name)
    requires NoNew(q, |p.log|) && Dealt(q, |p.log|, name, sub)
    ensures NoneLeft(q, j, sub)
  {
    forall i: nat, user | j <= i && CreatedAt(q, i, user) ensures Dealt(q, i + 1, user, sub) {
      if i == j {
        assert q.log[j] == p.log[j];
      } else {
        assert false;
      }
    }
  }

  /** Nobody has the sentinel of the account created at step j before, and nobody else
      gets it up to step i: sentinels are drawn at random. */
  ghost predicate OwnSentinel(p: Past, j: nat, i: nat)
    requires j < |p.log| && j < |p.states| && p.log[j].AddIdentityUser? && i <= |p.log|
  {
    && (forall w :: !Marked(p.states[j], w, p.log[j].serial))
    && (forall k :: j < k < i ==> !Mints(p.log[k], p.log[j].serial))
  }

  lemma NewIsMarked(db: Db, u: string, role: Role, serial: int)
    requires Sound(db) && u !in db.users && forall w :: !Marked(db, w, serial)
    ensures OnlyMarked(Step(db, AddIdentityUser(u, role, serial)), u, serial)
  {
    var d := Step(db, AddIdentityUser(u, role, serial));
    forall w ensures Marked(d, w, serial) <==> w == u {
      assert !Marked(db, w, serial);
    }
  }

  /** At step i the name of an account created at step j holds that account as it was
      created exactly when no operation in between removed it, set its credential, or
      left it under another name. */
  lemma NameHits(p: Past, j: nat, i: nat, u: string)
    requires Lived(p) && CreatedAt(p, j, u) && j < i <= |p.log| && OwnSentinel(p, j, i)
    ensures Sound(p.states[j + 1])
    ensures Marked(p.states[i], u, p.log[j].serial) <==> AsCreated(p.states[j + 1], p.log[j + 1..i], u)
  {
    var serial, ops := p.log[j].serial, p.log[j + 1..i];
    assert StepAt(p.states, p.log, j);
    TraceStretch(p.states, p.log, j + 1, i);
    NewIsMarked(p.states[j], u, p.log[j].role, serial);
    MarkFollows(p.states[j + 1], ops, u, serial);
  }

  /** A link is by name: one that takes effect opens the name's account to the subject,
      and that is the account as created exactly under the condition above. */
  lemma LinkHits(p: Past, j: nat, i: nat, u: string, sub: string)
    requires Lived(p) && CreatedAt(p, j, u) && j < i < |p.log| && OwnSentinel(p, j, i)
    requires p.log[i].Link? && p.log[i].user == u && p.log[i].provider == PROVIDER && p.log[i].subject == sub
    requires Linkable(p.states[i], u, sub)
    ensures Claimed(p.states[i + 1], PROVIDER, sub, u) && p.states[i + 1].users == p.states[i].users
    ensures Sound(p.states[j + 1])
    ensures Marked(p.states[i + 1], u, p.log[j].serial) <==> AsCreated(p.states[j + 1], p.log[j + 1..i], u)
  {
    assert StepAt(p.states, p.log, i);
    NameHits(p, j, i, u);
  }

  /** So is a removal. */
  lemma RemovalHits(p: Past, j: nat, i: nat, u: string)
    requires Lived(p) && CreatedAt(p, j, u) && j < i < |p.log| && OwnSentinel(p, j, i)
    requires p.log[i] == RemoveUser(u) && u in p.states[i].users && !LastAdmin(p.states[i], u)
    ensures p.states[i + 1] == Removed(p.states[i], u) && Sound(p.states[j + 1])
    ensures Marked(p.states[i], u, p.log[j].serial) <==> AsCreated(p.states[j + 1], p.log[j + 1..i], u)
  {
    assert StepAt(p.states, p.log, i);
    NameHits(p, j, i, u);
  }

  // What other requests can do in between, with no more than their callers offer: the new
  // account is removed and another made under its name, or given a password by a creation
  // whose look at the name came earlier.

  /** One operation more, of this request or of another. */
  ghost function Told(p: Past, op: Op, other: bool): (q: Past)
    requires Lived(p)
    ensures Lived(q) && q.log == p.log + [op] && p.states <= q.states && |q.states| == |p.states| + 1
    ensures q.others == p.others + (if other then {|p.log|} else {})
    ensures q.states[|q.log|] == Step(p.states[|p.log|], op)
  {
    LongerLives(p, op);
    var q := Longer(p, op);
    if other then q.(others := q.others + {|p.log|}) else q
  }

  ghost predicate OthersOffered(p: Past) {
    forall i :: i in p.others && i < |p.log| && i < |p.states| ==> Offered(p.states[i], p.log[i])
  }

  /** The start of each such story: this request creates the account. */
  ghost function Opening(db: Db, u: string, role: Role, serial: int): (p: Past)
    requires Sound(db) && u !in db.users
    ensures Lived(p) && p.log == [AddIdentityUser(u, role, serial)] && p.others == {}
    ensures p.states == [db, db.(users := db.users[u := User(Sentinel(serial), role)])]
    ensures CreatedAt(p, 0, u)
  {
    Told(Past([db], [], {}), AddIdentityUser(u, role, serial), false)
  }

  /** The account is removed and another made under its name. */
  lemma Replaced(db: Db, u: string, role: Role, serial: int, password: string) returns (p: Past)
    requires Sound(db) && HasAdmin(db) && u !in db.users
    ensures Lived(p) && p.states[0] == db && p.others == {1, 2} && OthersOffered(p) && CreatedAt(p, 0, u)
    ensures p.log == [AddIdentityUser(u, role, serial), RemoveUser(u), AddUser(u, password, Admin)]
    ensures p.states[3] == db.(users := db.users[u := User(Password(password), Admin)])
  {
    var a :| IsAdmin(db, a);
    p := Opening(db, u, role, serial);
    var d := p.states[1];
    assert IsAdmin(d, a) && a != u;
    p := Told(p, RemoveUser(u), true);
    ForgetsNew(db, u, User(Sentinel(serial), role));
    p := Told(p, AddUser(u, password, Admin), true);
  }

  lemma ForgetsNew(db: Db, u: string, user: User)
    requires Sound(db) && u !in db.users
    ensures Removed(db.(users := db.users[u := user]), u) == db
  {
    var r := Removed(db.(users := db.users[u := user]), u);
    assert r.users == db.users && r.ids == db.ids && r.keys == db.keys;
  }

  /** So between creation and link: the visitor opens the other person's administrator
      account. */
  lemma LinkedToAnother(db: Db, u: string, v: Visitor, policy: Policy, password: string, serial: int, at: real)
    returns (p: Past)
    requires Sound(db) && HasAdmin(db) && u !in db.users && MayCreate(v, policy)
    requires v.sub != "" && Unclaimed(db, PROVIDER, v.sub)
    ensures Lived(p) && p.states[0] == db && p.others == {1, 2} && OthersOffered(p) && AllWithin(p, 0, v, policy)
    ensures p.log == [AddIdentityUser(u, policy.role, serial), RemoveUser(u), AddUser(u, password, Admin),
                      Link(u, PROVIDER, v.sub, AddressOf(v), v.display, at)]
    ensures Claimed(p.states[4], PROVIDER, v.sub, u) && IsAdmin(p.states[4], u) && HasPassword(p.states[4], u, password)
  {
    p := Replaced(db, u, policy.role, serial, password);
    NewIsLinkable(db, u, User(Password(password), Admin), v.sub);
    p := Told(p, Link(u, PROVIDER, v.sub, AddressOf(v), v.display, at), false);
    assert CreatedAt(p, 0, u);
  }

  ghost predicate HasPassword(db: Db, u: string, password: string) {
    u in db.users && db.users[u].secret == Password(password)
  }

  /** Given a password in between: the visitor shares the account with whoever set it. */
  lemma LinkedAndShared(db: Db, u: string, v: Visitor, policy: Policy, password: string, serial: int, at: real)
    returns (p: Past)
    requires Sound(db) && u !in db.users && MayCreate(v, policy)
    requires v.sub != "" && Unclaimed(db, PROVIDER, v.sub)
    ensures Lived(p) && p.states[0] == db && p.others == {1} && OthersOffered(p) && AllWithin(p, 0, v, policy)
    ensures p.log == [AddIdentityUser(u, policy.role, serial), AddUser(u, password, Admin),
                      Link(u, PROVIDER, v.sub, AddressOf(v), v.display, at)]
    ensures Claimed(p.states[3], PROVIDER, v.sub, u) && HasPassword(p.states[3], u, password)
  {
    p := Opening(db, u, policy.role, serial);
    p := Told(p, AddUser(u, password, Admin), true);
    assert Linkable(p.states[2], u, v.sub);
    p := Told(p, Link(u, PROVIDER, v.sub, AddressOf(v), v.display, at), false);
    assert CreatedAt(p, 0, u);
  }

  /** The subject is linked elsewhere first, so the link is refused, and the removal takes
      the other person's account. */
  lemma RemovedAnother(db: Db, u: string, w: string, v: Visitor, policy: Policy, password: string, serial: int,
                       at: real)
    returns (p: Past)
    requires Sound(db) && HasAdmin(db) && u !in db.users && w in db.users && MayCreate(v, policy)
    requires Linkable(db, w, v.sub)
    ensures Lived(p) && p.states[0] == db && p.others == {1, 2, 3} && OthersOffered(p) && AllWithin(p, 0, v, policy)
    ensures p.log == [AddIdentityUser(u, policy.role, serial), RemoveUser(u), AddUser(u, password, Admin),
                      Link(w, PROVIDER, v.sub, None, None, at),
                      Link(u, PROVIDER, v.sub, AddressOf(v), v.display, at), RemoveUser(u)]
    ensures IsAdmin(p.states[5], u) && HasPassword(p.states[5], u, password) && u !in p.states[6].users
  {
    var q := SpurnedThere(db, u, w, v, policy.role, password, serial, at);
    OtherAdminStays(db, q.states[3], q.states[5], u);
    p := Told(q, RemoveUser(u), false);
    assert CreatedAt(p, 0, u) && RefusedAt(p, 4, u, v.sub);
    OwnThree(p, u, v, policy);
  }

  lemma SpurnedThere(db: Db, u: string, w: string, v: Visitor, role: Role, password: string, serial: int, at: real)
    returns (q: Past)
    requires Sound(db) && HasAdmin(db) && u !in db.users && Linkable(db, w, v.sub)
    ensures Lived(q) && q.states[0] == db && q.others == {1, 2, 3} && OthersOffered(q) && CreatedAt(q, 0, u)
    ensures q.log == [AddIdentityUser(u, role, serial), RemoveUser(u), AddUser(u, password, Admin),
                      Link(w, PROVIDER, v.sub, None, None, at),
                      Link(u, PROVIDER, v.sub, AddressOf(v), v.display, at)]
    ensures q.states[3] == db.(users := db.users[u := User(Password(password), Admin)])
    ensures q.states[5].users == q.states[3].users && RefusedAt(q, 4, u, v.sub)
  {
    q := Replaced(db, u, role, serial, password);
    var d := q.states[3];
    LinkRefused(d, u, w, v, at);
    q := Told(q, Link(w, PROVIDER, v.sub, None, None, at), true);
    q := Told(q, Link(u, PROVIDER, v.sub, AddressOf(v), v.display, at), false);
  }

  lemma OwnThree(p: Past, u: string, v: Visitor, policy: Policy)
    requires |p.log| == 6 && p.others == {1, 2, 3} && MayCreate(v, policy)
    requires p.log[0].AddIdentityUser? && p.log[0].role == policy.role && p.log[5] == RemoveUser(u)
    requires CreatedAt(p, 0, u) && RefusedAt(p, 4, u, v.sub) && Quotes(v, p.log[4].email, p.log[4].display)
    ensures AllWithin(p, 0, v, policy)
  {
    assert Created(p, 0, 4, u) && Created(p, 0, 5, u) && Spurned(p, 0, 5, u, v.sub);
  }

  lemma LinkRefused(d: Db, u: string, w: string, v: Visitor, at: real)
    requires Sound(d) && Linkable(d, w, v.sub) && u in d.users
    ensures var after := Step(d, Link(w, PROVIDER, v.sub, None, None, at));
            Sound(after) && after.users == d.users && !Linkable(after, u, v.sub) &&
            Step(after, Link(u, PROVIDER, v.sub, AddressOf(v), v.display, at)) == after
  {
    StepSound(d, Link(w, PROVIDER, v.sub, None, None, at));
    var after := Step(d, Link(w, PROVIDER, v.sub, None, None, at));
    assert Claimed(after, PROVIDER, v.sub, w);
  }

  lemma OtherAdminStays(db: Db, d: Db, end: Db, u: string)
    requires HasAdmin(db) && u !in db.users && u in d.users && d.users - {u} == db.users && end.users == d.users
    ensures !LastAdmin(end, u)
  {
    var a :| IsAdmin(db, a);
    assert a in d.users - {u};
    assert IsAdmin(end, a) && a != u;
  }

  // ------------------------------------------------- what a sign-in must answer

  /** The name a new account would get in two attempts, if any of the two is free. */
  function NewName(taken: set<string>, base: string, suffixes: (string, string)): Option<string> {
    var first, second := Derived(taken, base, suffixes.0), Derived(taken, base, suffixes.1);
    if first !in taken then Some(first) else if second !in taken then Some(second) else None
  }

  ghost predicate SomePending(db: Db, address: string) {
    address != "" && exists u :: Pending(db, PROVIDER, address, u)
  }

  /** The answer to a linked or pre-linked visitor; None for anybody else. */
  ghost predicate Recognised(db: Db, v: Visitor, policy: Policy, o: Option<Opened>) {
    if !Unclaimed(db, PROVIDER, v.sub) then
      o.Some? && o.value.Account? && Claimed(db, PROVIDER, v.sub, o.value.user)
    else if !SomePending(db, v.address) then o == None
    else if !v.verified then o == Some(Refused(EmailUnverified))
    else if !DomainAllowed(policy) then o == Some(Refused(WrongDomain))
    else o.Some? && o.value.Account? && FirstPending(db, PROVIDER, v.address, o.value.user)
  }

  /** Why a stranger is turned away before any account is created. */
  function Stranger(v: Visitor, policy: Policy): Option<Refusal> {
    if !policy.autoCreate then Some(NotLinked)
    else if policy.domains && v.address == "" then Some(WrongDomain)
    else if policy.domains && !v.verified then Some(EmailUnverified)
    else if !DomainAllowed(policy) then Some(WrongDomain)
    else None
  }

  function NewAnswer(db: Db, v: Visitor, suffixes: (string, string)): Opened {
    match NewName(db.users.Keys, v.base, suffixes)
    case Some(name) => Account(name)
    case None => Refused(NotLinked)
  }

  /** The one right answer, when nobody interferes. */
  ghost predicate RightAnswer(db: Db, v: Visitor, policy: Policy, suffixes: (string, string), o: Opened) {
    Recognised(db, v, policy, Some(o)) ||
    (Recognised(db, v, policy, None) &&
     o == match Stranger(v, policy)
          case Some(why) => Refused(why)
          case None => NewAnswer(db, v, suffixes))
  }

  /** And what it leaves: a refusal changes nothing; an opened account is the subject's,
      and the only one that can be new, passwordless and with the operator's role. */
  ghost predicate RightState(db: Db, after: Db, v: Visitor, policy: Policy, o: Opened) {
    match o
    case Refused(_) => after == db
    case Account(user) =>
      Claimed(after, PROVIDER, v.sub, user) &&
      (user in db.users ==> after.users == db.users) &&
      (user !in db.users ==>
         user in after.users && after.users[user].role == policy.role && after.users[user].secret.Sentinel? &&
         after.users - {user} == db.users)
  }

  /** Recognition done: the right answer and state, or nobody known and nothing changed. */
  ghost predicate Settled(db: Db, after: Db, v: Visitor, policy: Policy, o: Option<Opened>) {
    Recognised(db, v, policy, o) &&
    match o
    case None => after == db
    case Some(answer) => RightState(db, after, v, policy, answer)
  }

  /** One attempt to create: a free name becomes the subject's account, a taken one changes nothing. */
  ghost predicate CreatedOrTaken(db: Db, after: Db, v: Visitor, policy: Policy, suffix: string, o: Option<Opened>) {
    NamedOrTaken(db, after, v, policy, Derived(db.users.Keys, v.base, suffix), o)
  }

  ghost predicate NamedOrTaken(db: Db, after: Db, v: Visitor, policy: Policy, name: string, o: Option<Opened>) {
    if name in db.users then o == None && after == db
    else o == Some(Account(name)) && RightState(db, after, v, policy, Account(name))
  }

  lemma NewIsLinkable(db: Db, name: string, user: User, sub: string)
    requires Sound(db) && name !in db.users
    ensures sub != "" && Unclaimed(db, PROVIDER, sub) ==> Linkable(db.(users := db.users[name := user]), name, sub)
    ensures db.users[name := user] - {name} == db.users
  {
    assert (PROVIDER, name) in db.ids ==> (PROVIDER, name).1 in db.users;
  }

  ghost predicate Linkable(db: Db, name: string, sub: string) {
    name in db.users && Free(db, name, sub)
  }

  /** Neither the subject nor the user's slot is taken. */
  ghost predicate Free(db: Db, name: string, sub: string) {
    sub != "" && (PROVIDER, name) !in db.ids && Unclaimed(db, PROVIDER, sub)
  }

  /** What becomes of a subject nobody has: refused where the user has another one already,
      linked to any other user there is. */
  ghost predicate RightLink(db: Db, after: Db, username: string, sub: string, why: Option<Refusal>) {
    var taken := (PROVIDER, username) in db.ids && db.ids[(PROVIDER, username)].subject.Some?;
    why == (if taken then Some(Taken) else if username in db.users then None else Some(LinkedElsewhere)) &&
    (why == None ==> Claimed(after, PROVIDER, sub, username))
  }

  /** An account's own request touches no other account and no other subject. */
  predicate OwnLink(op: Op, username: string, sub: string) {
    match op
    case Unlink(u, p) => u == username && p == PROVIDER
    case Link(u, p, s, _, _, _) => u == username && p == PROVIDER && s == sub
    case _ => false
  }

  ghost predicate OnlyOwnLinks(p: Past, from: nat, username: string, sub: string) {
    forall i :: from <= i < |p.log| && Mine(p, i) ==> OwnLink(p.log[i], username, sub)
  }

  lemma OwnLinksGrow(p: Past, q: Past, from: nat, username: string, sub: string)
    requires Extends(p, q) && OnlyOwnLinks(p, from, username, sub) && OnlyOwnLinks(q, |p.log|, username, sub)
    ensures OnlyOwnLinks(q, from, username, sub)
  {
    forall i | from <= i < |q.log| && Mine(q, i) ensures OwnLink(q.log[i], username, sub) {
      if i < |p.log| {
        assert Mine(p, i) && q.log[i] == p.log[i];
      }
    }
  }

  class Auth {
    const history: History

    constructor (history: History)
      ensures this.history == history
    {
      this.history := history;
    }

    /** `oidc_signin`, first part: the account already linked, or pre-linked. */
    method Recognise(v: Visitor, policy: Policy) returns (o: Option<Opened>)
      requires history.Valid()
      modifies history
      ensures history.Grew()
      ensures o.Some? && o.value.Account? ==> Opens(history.past, |old(history.past).log|, v.sub, o.value.user)
      ensures forall u :: Claimed(old(history.db), PROVIDER, v.sub, u) ==> o == Some(Account(u))
      ensures AllWithin(history.past, |old(history.past).log|, v, policy)
      ensures NoNew(history.past, |old(history.past).log|)
      ensures history.Alone() && v.sub != "" ==> Settled(old(history.db), history.db, v, policy, o)
    {
      ghost var was := history.past;
      var row := history.IdentityUser(PROVIDER, v.sub);
      if row.Some? {
        assert Opens(history.past, |was.log|, v.sub, row.value);
        Welcome(row.value, v, policy);
        StillOpens(was, history.past, |was.log|, |was.log|, v.sub, row.value);
        return Some(Account(row.value));
      }
      history.Interfere();
      ghost var middle := history.past;
      o := ClaimPending(v, policy);
      if o.Some? && o.value.Account? {
        StillOpens(history.past, history.past, |middle.log|, |was.log|, v.sub, o.value.user);
      }
      WithinEarlier(history.past, |was.log|, |middle.log|, v, policy);
    }

    /** A linked visitor: address and display name are brought up to date. */
    method Welcome(user: string, v: Visitor, policy: Policy)
      requires history.Valid() && Claimed(history.db, PROVIDER, v.sub, user)
      modifies history
      ensures history.Grew() && AllWithin(history.past, |old(history.past).log|, v, policy)
      ensures NoNew(history.past, |old(history.past).log|)
      ensures history.Alone() ==>
                history.db.users == old(history.db).users && Claimed(history.db, PROVIDER, v.sub, user)
    {
      history.Interfere();
      history.TouchIdentity(PROVIDER, v.sub, AddressOf(v), v.display);
    }

    /** The pre-linked half: a vouched visitor gets the oldest pre-link of the address. */
    method ClaimPending(v: Visitor, policy: Policy) returns (o: Option<Opened>)
      requires history.Valid()
      modifies history
      ensures history.Grew()
      ensures o.Some? && o.value.Account? ==> Opens(history.past, |old(history.past).log|, v.sub, o.value.user)
      ensures AllWithin(history.past, |old(history.past).log|, v, policy)
      ensures NoNew(history.past, |old(history.past).log|)
      ensures history.Alone() && v.sub != "" && Unclaimed(old(history.db), PROVIDER, v.sub) ==>
                Settled(old(history.db), history.db, v, policy, o)
    {
      var pending := history.PendingIdentity(PROVIDER, v.address);
      if pending.None? {
        return None;
      }
      if !v.verified {
        return Some(Refused(EmailUnverified));
      }
      if !DomainAllowed(policy) {
        return Some(Refused(WrongDomain));
      }
      history.Interfere();
      var user := history.ClaimIdentity(PROVIDER, v.address, v.sub, v.display);
      if user.Some? {
        return Some(Account(user.value));
      }
      return None;
    }

    /** One turn of the creation loop. */
    method Create(v: Visitor, policy: Policy, suffix: string, serial: int, at: real)
      returns (o: Option<Opened>)
      requires history.Valid() && MayCreate(v, policy)
      modifies history
      ensures history.Grew()
      ensures o.Some? && o.value.Account? ==> Opens(history.past, |old(history.past).log|, v.sub, o.value.user)
      ensures AllWithin(history.past, |old(history.past).log|, v, policy)
      ensures NoneLeft(history.past, |old(history.past).log|, v.sub)
      ensures history.Alone() && v.sub != "" && Unclaimed(old(history.db), PROVIDER, v.sub) ==>
                CreatedOrTaken(old(history.db), history.db, v, policy, suffix, o)
    {
      ghost var was := history.past;
      var name := DeriveUsername(history, v.base, suffix);
      history.Interfere();
      ghost var middle := history.past;
      o := Attempt(name, v, policy, serial, at);
      if o.Some? && o.value.Account? {
        StillOpens(history.past, history.past, |middle.log|, |was.log|, v.sub, o.value.user);
      }
      WithinEarlier(history.past, |was.log|, |middle.log|, v, policy);
    }

    /** Create an account of this name, unless there is one, and link it. */
    method Attempt(name: string, v: Visitor, policy: Policy, serial: int, at: real)
      returns (o: Option<Opened>)
      requires history.Valid() && MayCreate(v, policy)
      modifies history
      ensures history.Grew()
      ensures o.Some? && o.value.Account? ==> Opens(history.past, |old(history.past).log|, v.sub, o.value.user)
      ensures AllWithin(history.past, |old(history.past).log|, v, policy)
      ensures NoneLeft(history.past, |old(history.past).log|, v.sub)
      ensures history.Alone() && v.sub != "" && Unclaimed(old(history.db), PROVIDER, v.sub) ==>
                NamedOrTaken(old(history.db), history.db, v, policy, name, o)
    {
      ghost var was := history.past;
      var added := history.AddIdentityUser(name, policy.role, serial);
      ghost var middle := history.past;
      if !added {
        return None;
      }
      assert CreatedAt(middle, |was.log|, name);
      NewIsLinkable(was.states[|was.log|], name, User(Sentinel(serial), policy.role), v.sub);
      o := LinkNew(name, v, policy, at, |was.log|);
      if o.value.Account? {
        StillOpens(history.past, history.past, |middle.log|, |was.log|, v.sub, o.value.user);
      }
      WithinGrows(middle, history.past, |was.log|, |was.log|, v, policy);
      OneCreated(middle, history.past, |was.log|, name, v.sub);
    }

    /** Link the account just created. */
    method LinkNew(name: string, v: Visitor, policy: Policy, at: real, ghost since: nat) returns (o: Option<Opened>)
      requires history.Valid() && MayCreate(v, policy)
      requires Created(history.past, since, |history.past.log|, name)
      modifies history
      ensures history.Grew() && o.Some?
      ensures o.value.Account? ==> Opens(history.past, |old(history.past).log|, v.sub, o.value.user)
      ensures WithinFrom(history.past, since, |old(history.past).log|, v, policy)
      ensures NoNew(history.past, |old(history.past).log|)
      ensures Dealt(history.past, |old(history.past).log|, name, v.sub)
      ensures history.Alone() && Linkable(old(history.db), name, v.sub) ==>
                o == Some(Account(name)) && Claimed(history.db, PROVIDER, v.sub, name) &&
                history.db.users == old(history.db).users
    {
      ghost var was := history.past;
      history.Interfere();
      ghost var before := history.past;
      CreatedStays(was, before, since, |was.log|, |before.log|, name);
      var got := LinkOrGiveWay(name, v, policy, at, since);
      o := Some(got);
      if got.Account? {
        StillOpens(history.past, history.past, |before.log|, |was.log|, v.sub, got.user);
      }
      WithinGrows(before, history.past, since, |was.log|, v, policy);
      NoNewGrows(before, history.past, |was.log|);
      DealtStays(history.past, history.past, |was.log|, |before.log|, name, v.sub);
    }

    method LinkOrGiveWay(name: string, v: Visitor, policy: Policy, at: real, ghost since: nat) returns (o: Opened)
      requires history.Valid() && MayCreate(v, policy)
      requires Created(history.past, since, |history.past.log|, name)
      modifies history
      ensures history.Grew()
      ensures o.Account? ==> Opens(history.past, |old(history.past).log|, v.sub, o.user)
      ensures WithinFrom(history.past, since, |old(history.past).log|, v, policy)
      ensures NoNew(history.past, |old(history.past).log|)
      ensures Dealt(history.past, |old(history.past).log|, name, v.sub)
      ensures history.Alone() && Linkable(old(history.db), name, v.sub) ==>
                o == Account(name) && Claimed(history.db, PROVIDER, v.sub, name) &&
                history.db.users == old(history.db).users
    {
      ghost var was := history.past;
      var linked := LinkOwn(name, v, policy, at, since);
      if linked {
        return Account(name);
      }
      ghost var middle := history.past;
      o := GiveWay(name, v, policy, since);
      if o.Account? {
        StillOpens(history.past, history.past, |middle.log|, |was.log|, v.sub, o.user);
      }
      WithinGrows(middle, history.past, since, |was.log|, v, policy);
      NoNewGrows(middle, history.past, |was.log|);
      DealtStays(history.past, history.past, |was.log|, |middle.log|, name, v.sub);
    }

    method LinkOwn(name: string, v: Visitor, policy: Policy, at: real, ghost since: nat) returns (linked: bool)
      requires history.Valid() && MayCreate(v, policy)
      requires Created(history.past, since, |history.past.log|, name)
      modifies history
      ensures history.Grew() && history.Alone() && Created(history.past, since, |history.past.log|, name)
      ensures WithinFrom(history.past, since, |old(history.past).log|, v, policy)
      ensures NoNew(history.past, |old(history.past).log|)
      ensures linked ==> Claimed(history.db, PROVIDER, v.sub, name)
      ensures linked ==> Dealt(history.past, |old(history.past).log|, name, v.sub)
      ensures !linked ==> Spurned(history.past, since, |history.past.log|, name, v.sub)
      ensures Linkable(old(history.db), name, v.sub) ==> linked
      ensures history.db.users == old(history.db).users
    {
      ghost var was := history.past;
      linked := history.LinkIdentity(name, PROVIDER, v.sub, AddressOf(v), v.display, at);
      CreatedStays(was, history.past, since, |was.log|, |was.log|, name);
      CreatedStays(was, history.past, since, |was.log|, |history.past.log|, name);
      assert if linked then LinkedAt(history.past, |was.log|, name, v.sub)
             else RefusedAt(history.past, |was.log|, name, v.sub);
    }

    /** The subject was linked to someone else meanwhile: the empty account goes. */
    method GiveWay(name: string, v: Visitor, policy: Policy, ghost since: nat) returns (o: Opened)
      requires history.Valid() && MayCreate(v, policy)
      requires Created(history.past, since, |history.past.log|, name)
      requires Spurned(history.past, since, |history.past.log|, name, v.sub)
      modifies history
      ensures history.Grew()
      ensures o.Account? ==> Opens(history.past, |old(history.past).log|, v.sub, o.user)
      ensures WithinFrom(history.past, since, |old(history.past).log|, v, policy)
      ensures NoNew(history.past, |old(history.past).log|)
      ensures Dealt(history.past, |old(history.past).log|, name, v.sub)
    {
      ghost var was := history.past;
      history.Interfere();
      CreatedStays(was, history.past, since, |was.log|, |history.past.log|, name);
      SpurnedStays(was, history.past, since, |was.log|, |history.past.log|, name, v.sub);
      ghost var before := history.past;
      Undo(name, v, policy, since);
      WithinGrows(before, history.past, since, |was.log|, v, policy);
      NoNewGrows(before, history.past, |was.log|);
      DealtStays(history.past, history.past, |was.log|, |before.log|, name, v.sub);
      var row := history.IdentityUser(PROVIDER, v.sub);
      if row.Some? {
        return Account(row.value);
      }
      return Refused(LinkedElsewhere);
    }

    /** The account just created is removed, by its name. */
    method Undo(name: string, v: Visitor, policy: Policy, ghost since: nat)
      requires history.Valid() && MayCreate(v, policy)
      requires Created(history.past, since, |history.past.log|, name)
      requires Spurned(history.past, since, |history.past.log|, name, v.sub)
      modifies history
      ensures history.Grew() && WithinFrom(history.past, since, |old(history.past).log|, v, policy)
      ensures NoNew(history.past, |old(history.past).log|)
      ensures Dealt(history.past, |old(history.past).log|, name, v.sub)
    {
      ghost var before := history.past;
      var removed := history.RemoveUser(name);
      history.Interfere();
      CreatedStays(before, history.past, since, |before.log|, |before.log|, name);
      SpurnedStays(before, history.past, since, |before.log|, |before.log|, name, v.sub);
      OneWrite(history.past, since, |before.log|, |before.log|, v, policy);
      assert Mine(history.past, |before.log|) && history.past.log[|before.log|] == RemoveUser(name);
    }

    /** `oidc_signin`.  Whatever other requests do: an account it opens was linked to
        exactly this subject during the call, a subject linked beforehand opens its
        account, all this request wrote is what the operator allowed, and each name it
        created is linked or, by its name, removed.  When nobody interferes: the one right
        answer, and the state it calls for. */
    method SignIn(v: Visitor, policy: Policy, suffixes: (string, string), serials: (int, int), at: real)
      returns (o: Opened)
      requires history.Valid()
      modifies history
      ensures history.Grew()
      ensures o.Account? ==> Opens(history.past, |old(history.past).log|, v.sub, o.user)
      ensures forall u :: Claimed(old(history.db), PROVIDER, v.sub, u) ==> o == Account(u)
      ensures AllWithin(history.past, |old(history.past).log|, v, policy)
      ensures NoneLeft(history.past, |old(history.past).log|, v.sub)
      ensures history.Alone() && v.sub != "" ==>
                RightAnswer(old(history.db), v, policy, suffixes, o) &&
                RightState(old(history.db), history.db, v, policy, o)
    {
      ghost var was := history.past;
      var known := Recognise(v, policy);
      if known.Some? {
        return known.value;
      }
      var turned := Gate(v, policy);
      if turned.Some? {
        return Refused(turned.value);
      }
      ghost var middle := history.past;
      o := CreateTwice(v, policy, suffixes, serials, at);
      if o.Account? {
        StillOpens(history.past, history.past, |middle.log|, |was.log|, v.sub, o.user);
      }
      WithinEarlier(history.past, |was.log|, |middle.log|, v, policy);
      WithinGrows(middle, history.past, |was.log|, |was.log|, v, policy);
      NoneLeftGrows(middle, history.past, |was.log|, v.sub);
    }

    /** The operator's conditions for creating accounts, in the order they are tried. */
    method Gate(v: Visitor, policy: Policy) returns (why: Option<Refusal>)
      ensures why == Stranger(v, policy) && (why.None? <==> MayCreate(v, policy))
      ensures why == None <==>
                policy.autoCreate && (policy.domains ==> v.address != "" && v.verified && policy.onList)
      ensures why == Some(NotLinked) <==> !policy.autoCreate
      ensures why == Some(EmailUnverified) <==>
                policy.autoCreate && policy.domains && v.address != "" && !v.verified
      ensures why == Some(WrongDomain) <==>
                policy.autoCreate && policy.domains && (v.address == "" || (v.verified && !policy.onList))
    {
      if !policy.autoCreate {
        return Some(NotLinked);
      }
      if policy.domains {
        if v.address == "" {
          return Some(WrongDomain);
        }
        if !v.verified {
          return Some(EmailUnverified);
        }
        if !policy.onList {
          return Some(WrongDomain);
        }
      }
      return None;
    }

    /** The creation loop: a name race with another request gets one more attempt. */
    method CreateTwice(v: Visitor, policy: Policy, suffixes: (string, string), serials: (int, int), at: real)
      returns (o: Opened)
      requires history.Valid() && MayCreate(v, policy)
      modifies history
      ensures history.Grew()
      ensures o.Account? ==> Opens(history.past, |old(history.past).log|, v.sub, o.user)
      ensures AllWithin(history.past, |old(history.past).log|, v, policy)
      ensures NoneLeft(history.past, |old(history.past).log|, v.sub)
      ensures history.Alone() && v.sub != "" && Unclaimed(old(history.db), PROVIDER, v.sub) ==>
                o == NewAnswer(old(history.db), v, suffixes) &&
                RightState(old(history.db), history.db, v, policy, o)
    {
      var first := Create(v, policy, suffixes.0, serials.0, at);
      if first.Some? {
        return first.value;
      }
      ghost var was, middle := old(history.past), history.past;
      var second := Create(v, policy, suffixes.1, serials.1, at);
      WithinEarlier(history.past, |was.log|, |middle.log|, v, policy);
      WithinGrows(middle, history.past, |was.log|, |was.log|, v, policy);
      NoneLeftGrows(middle, history.past, |was.log|, v.sub);
      if second.Some? {
        if second.value.Account? {
          StillOpens(history.past, history.past, |middle.log|, |was.log|, v.sub, second.value.user);
        }
        return second.value;
      }
      return Refused(NotLinked);
    }

    /** `oidc_link`: None when the account is bound to the identity. */
    method LinkAccount(username: string, v: Visitor, at: real) returns (why: Option<Refusal>)
      requires history.Valid()
      modifies history
      ensures history.Grew()
      ensures why.None? ==> Opens(history.past, |old(history.past).log|, v.sub, username)
      ensures forall u :: Claimed(old(history.db), PROVIDER, v.sub, u) ==>
                why == if u == username then None else Some(LinkedElsewhere)
      ensures (exists u :: Claimed(old(history.db), PROVIDER, v.sub, u)) ==> history.past == old(history.past)
      ensures OnlyOwnLinks(history.past, |old(history.past).log|, username, v.sub)
      ensures history.Alone() && v.sub != "" && Unclaimed(old(history.db), PROVIDER, v.sub) ==>
                RightLink(old(history.db), history.db, username, v.sub, why)
    {
      var other := history.IdentityUser(PROVIDER, v.sub);
      if other.Some? {
        return if other.value == username then None else Some(LinkedElsewhere);
      }
      history.Interfere();
      ghost var middle := history.past;
      why := LinkFree(username, v, at);
      if why.None? {
        StillOpens(history.past, history.past, |middle.log|, |old(history.past).log|, v.sub, username);
      }
    }

    /** The subject is nobody's: a claimed identity stays, a pending one is replaced. */
    method LinkFree(username: string, v: Visitor, at: real) returns (why: Option<Refusal>)
      requires history.Valid()
      modifies history
      ensures history.Grew()
      ensures OnlyOwnLinks(history.past, |old(history.past).log|, username, v.sub)
      ensures why.None? ==> Opens(history.past, |old(history.past).log|, v.sub, username)
      ensures history.Alone() && v.sub != "" && Unclaimed(old(history.db), PROVIDER, v.sub) ==>
                RightLink(old(history.db), history.db, username, v.sub, why)
    {
      if (PROVIDER, username) in history.db.ids {
        if history.db.ids[(PROVIDER, username)].subject.Some? {
          return Some(Taken);
        }
        DropPending(username, v.sub);
      }
      ghost var was, middle := old(history.past), history.past;
      why := Bind(username, v, at);
      OwnLinksGrow(middle, history.past, |was.log|, username, v.sub);
    }

    /** The slot is freed. */
    method DropPending(username: string, ghost sub: string)
      requires history.Valid()
      modifies history
      ensures history.Grew() && OnlyOwnLinks(history.past, |old(history.past).log|, username, sub)
      ensures history.Alone() ==>
                history.db == old(history.db).(ids := old(history.db).ids - {(PROVIDER, username)})
    {
      history.Interfere();
      var gone := history.UnlinkIdentity(username, PROVIDER);
    }

    method Bind(username: string, v: Visitor, at: real) returns (why: Option<Refusal>)
      requires history.Valid()
      modifies history
      ensures history.Grew() && OnlyOwnLinks(history.past, |old(history.past).log|, username, v.sub)
      ensures why.None? ==> Claimed(history.db, PROVIDER, v.sub, username)
      ensures why.None? || why == Some(LinkedElsewhere)
      ensures history.Alone() && Free(old(history.db), username, v.sub) ==>
                (why.None? <==> username in old(history.db).users)
    {
      history.Interfere();
      var linked := history.LinkIdentity(username, PROVIDER, v.sub, AddressOf(v), v.display, at);
      return if linked then None else Some(LinkedElsewhere);
    }
  }

  /** A later sign-in by the same subject opens the same account, whatever was done in
      between short of unlinking or removing it, under the name it has by then. */
  lemma LaterSignIn(start: Db, log: seq<Op>, more: seq<Op>, sub: string, user: string)
    requires Sound(start) && Claimed(Run(start, log), PROVIDER, sub, user)
    requires Unbroken(Run(start, log), more, PROVIDER, user)
    ensures forall v :: Claimed(Run(start, log + more), PROVIDER, sub, v) <==>
                        v == NameThrough(Run(start, log), more, user)
  {
    RunOn(start, log, more);
    ClaimPersists(Run(start, log), more, PROVIDER, sub, user);
  }

  lemma {:induction false} RunOn(start: Db, log: seq<Op>, more: seq<Op>)
    requires Sound(start)
    ensures Run(start, log + more) == Run(Run(start, log), more)
  {
    if more == [] {
      assert log + more == log;
    } else {
      var init, last := more[..|more| - 1], more[|more| - 1];
      RunOn(start, log, init);
      RunAppend(start, log + init, last);
      assert log + more == log + init + [last];
    }
  }
}
