/** User accounts and the guard that keeps an enabled administrator. */
module Admins {
  import opened Common

  datatype Role = Admin | Viewer | Unknown(name: string)

  datatype User = User(username: string, password: string, role: Role, disabled: bool)

  // Rows by id. Passwords stand for their hashes.
  type Table = map<nat, User>

  datatype Error = InvalidInput | NotFound | Conflict

  datatype Op =
    | Create(id: nat, username: string, password: string, role: Role)
    | SetRole(id: nat, role: Role)
    | SetPassword(id: nat, password: string)
    | SetDisabled(id: nat, disabled: bool)
    | Delete(id: nat)

  const BOOTSTRAP := "admin"

  predicate EnabledAdmin(u: User) { u.role == Admin && !u.disabled }

  function EnabledAdmins(t: Table): set<nat> { set id | id in t && EnabledAdmin(t[id]) }

  function EnabledCount(t: Table): nat { |EnabledAdmins(t)| }

  ghost predicate Administered(t: Table) { exists id :: id in t && EnabledAdmin(t[id]) }

  // Usernames are unique.
  ghost predicate Distinct(t: Table) { forall a, b :: a in t && b in t && t[a].username == t[b].username ==> a == b }

  predicate NameOk(s: string) {
    1 <= |s| <= 64 && forall i :: 0 <= i < |s| ==> ('a' <= s[i] <= 'z') || ('0' <= s[i] <= '9') || s[i] == '-'
  }

  predicate PasswordOk(s: string) { 12 <= |s| <= 72 }

  predicate RoleOk(r: Role) { r == Admin || r == Viewer }

  predicate Taken(t: Table, username: string) { exists id :: id in t && t[id].username == username }

  // requireAnotherAdmin
  predicate Guarded(t: Table, u: User) { EnabledAdmin(u) && EnabledCount(t) <= 1 }

  // The error of an operation, in the order the checks are made.
  function Refusal(t: Table, actor: string, op: Op): Option<Error> {
    if actor == "" then Some(InvalidInput)
    else match op
    case Create(_, username, password, role) =>
      if !NameOk(username) then Some(InvalidInput)
      else if Taken(t, username) then Some(Conflict)
      else if !RoleOk(role) || !PasswordOk(password) then Some(InvalidInput)
      else None
    case SetRole(id, role) =>
      if !RoleOk(role) then Some(InvalidInput)
      else if id !in t then Some(NotFound)
      else if t[id].role == Admin && role == Viewer && Guarded(t, t[id]) then Some(Conflict)
      else None
    case SetPassword(id, password) =>
      if !PasswordOk(password) then Some(InvalidInput) else if id !in t then Some(NotFound) else None
    case SetDisabled(id, disabled) =>
      if id !in t then Some(NotFound)
      else if disabled && !t[id].disabled && Guarded(t, t[id]) then Some(Conflict)
      else None
    case Delete(id) =>
      if id !in t then Some(NotFound) else if Guarded(t, t[id]) then Some(Conflict) else None
  }

  // What an accepted operation writes.
  function Written(t: Table, op: Op): Table
    requires !op.Create? ==> op.id in t
  {
    match op
    case Create(id, username, password, role) => t[id := User(username, password, role, false)]
    case SetRole(id, role) => t[id := t[id].(role := role)]
    case SetPassword(id, password) => t[id := t[id].(password := password)]
    case SetDisabled(id, disabled) => t[id := t[id].(disabled := disabled)]
    case Delete(id) => t - {id}
  }

  function Applied(t: Table, actor: string, op: Op): Table {
    if Refusal(t, actor, op).Some? then t else Written(t, op)
  }

  // An accepted operation touches one account, and of that account only what it is for; a
  // new account is enabled, with the name, password and role that were asked for.
  lemma AcceptedMeans(t: Table, actor: string, op: Op, id: nat)
    requires Refusal(t, actor, op).None? && (op.Create? ==> op.id !in t)
    ensures id != op.id ==> (id in Applied(t, actor, op) <==> id in t) && (id in t ==> Applied(t, actor, op)[id] == t[id])
    ensures op.Delete? <==> op.id !in Applied(t, actor, op)
    ensures !op.Delete? ==>
              var u := Applied(t, actor, op)[op.id];
              && u.username == (if op.Create? then op.username else t[op.id].username)
              && u.password == (if op.Create? || op.SetPassword? then op.password else t[op.id].password)
              && u.role == (if op.Create? || op.SetRole? then op.role else t[op.id].role)
              && u.disabled == (if op.Create? then false else if op.SetDisabled? then op.disabled else t[op.id].disabled)
  {}

  // The operation takes an enabled administrator away.
  predicate Removes(t: Table, op: Op) {
    && op.id in t && EnabledAdmin(t[op.id])
    && (op.Delete? || (op.SetRole? && op.role == Viewer) || (op.SetDisabled? && op.disabled))
  }

  lemma CountOne(t: Table, id: nat)
    requires id in t && EnabledAdmin(t[id])
    ensures EnabledCount(t) <= 1 <==> forall other :: other in t && EnabledAdmin(t[other]) ==> other == id
  {
    var admins := EnabledAdmins(t);
    var others := admins - {id};
    assert admins == {id} + others;
    if others == {} {
      assert admins == {id};
      forall other | other in t && EnabledAdmin(t[other])
        ensures other == id
      {
        assert other in admins;
      }
    } else {
      var other :| other in others;
      assert |others| > 0 && |admins| == 1 + |others|;
    }
  }

  // A valid call of an existing account's id is refused by the guard exactly when it would
  // take away the last enabled administrator.
  lemma GuardIsExact(t: Table, actor: string, op: Op)
    requires actor != "" && op.id in t && Administered(t) && !op.Create? && !op.SetPassword?
    requires op.SetRole? ==> RoleOk(op.role)
    ensures Refusal(t, actor, op) == Some(Conflict) <==> !Administered(Written(t, op))
  {
    var t' := Written(t, op);
    if other :| other in t && EnabledAdmin(t[other]) && other != op.id {
      assert other in t' && EnabledAdmin(t'[other]);
      if EnabledAdmin(t[op.id]) { CountOne(t, op.id); }
    } else {
      assert EnabledAdmin(t[op.id]);
      CountOne(t, op.id);
      if !Removes(t, op) { assert EnabledAdmin(t'[op.id]); }
    }
  }

  lemma StepKeeps(t: Table, actor: string, op: Op)
    requires Administered(t) && Distinct(t) && (op.Create? ==> op.id !in t)
    ensures Administered(Applied(t, actor, op)) && Distinct(Applied(t, actor, op))
  {
    if Refusal(t, actor, op).None? {
      var t' := Written(t, op);
      var admin :| admin in t && EnabledAdmin(t[admin]);
      if op.Create? || op.SetPassword? { assert admin in t' && EnabledAdmin(t'[admin]); } else { GuardIsExact(t, actor, op); }
    }
  }

  function After(t: Table, actors: seq<string>, ops: seq<Op>, n: nat): Table
    requires n <= |ops| == |actors|
  {
    if n == 0 then t else Applied(After(t, actors, ops, n - 1), actors[n - 1], ops[n - 1])
  }

  // Once seeded, every sequential run keeps an enabled administrator and unique names.
  lemma {:induction false} RunKeeps(t: Table, actors: seq<string>, ops: seq<Op>, n: nat)
    requires n <= |ops| == |actors| && Administered(t) && Distinct(t)
    requires forall i :: 0 <= i < n && ops[i].Create? ==> ops[i].id !in After(t, actors, ops, i)
    ensures Administered(After(t, actors, ops, n)) && Distinct(After(t, actors, ops, n))
  {
    if n > 0 {
      RunKeeps(t, actors, ops, n - 1);
      StepKeeps(After(t, actors, ops, n - 1), actors[n - 1], ops[n - 1]);
    }
  }

  // Two removals whose checks both ran before either write can leave no administrator.
  lemma InterleavedRemovals(t: Table, actor: string, a: nat, b: nat)
    requires actor != "" && a != b && a in t && b in t && EnabledAdmin(t[a]) && EnabledAdmin(t[b])
    requires forall id :: id in t && EnabledAdmin(t[id]) ==> id == a || id == b
    ensures Refusal(t, actor, Delete(a)).None? && Refusal(t, actor, Delete(b)).None?
    ensures !Administered(Written(Written(t, Delete(a)), Delete(b)))
  {
    CountOne(t, a);
    CountOne(t, b);
  }

  // ---------- the service ----------

  class Users {
    var rows: Table

    constructor (rows: Table)
      ensures this.rows == rows
    {
      this.rows := rows;
    }

    method CreateUser(id: nat, username: string, password: string, role: Role, actor: string) returns (err: Option<Error>)
      requires id !in rows
      modifies this
      ensures err == Refusal(old(rows), actor, Create(id, username, password, role))
      ensures rows == Applied(old(rows), actor, Create(id, username, password, role))
    {
      if actor == "" || |username| == 0 || |username| > 64 { return Some(InvalidInput); }
      for i := 0 to |username|
        invariant forall k :: 0 <= k < i ==> ('a' <= username[k] <= 'z') || ('0' <= username[k] <= '9') || username[k] == '-'
      {
        var c := username[i];
        if !('a' <= c <= 'z') && !('0' <= c <= '9') && c != '-' { return Some(InvalidInput); }
      }
      if Taken(rows, username) { return Some(Conflict); }
      if role != Admin && role != Viewer { return Some(InvalidInput); }
      if |password| < 12 || |password| > 72 { return Some(InvalidInput); }
      rows := rows[id := User(username, password, role, false)];
      return None;
    }

    method RequireAnotherAdmin(u: User) returns (err: Option<Error>)
      ensures err == if Guarded(rows, u) then Some(Conflict) else None
    {
      if u.role != Admin || u.disabled { return None; }
      if EnabledCount(rows) <= 1 { return Some(Conflict); }
      return None;
    }

    method ChangeRole(id: nat, role: Role, actor: string) returns (err: Option<Error>)
      modifies this
      ensures err == Refusal(old(rows), actor, SetRole(id, role)) && rows == Applied(old(rows), actor, SetRole(id, role))
    {
      if actor == "" || (role != Admin && role != Viewer) { return Some(InvalidInput); }
      if id !in rows { return Some(NotFound); }
      var user := rows[id];
      if user.role == Admin && role == Viewer {
        err := RequireAnotherAdmin(user);
        if err.Some? { return; }
      }
      rows := rows[id := user.(role := role)];
      return None;
    }

    method ChangePassword(id: nat, password: string, actor: string) returns (err: Option<Error>)
      modifies this
      ensures err == Refusal(old(rows), actor, SetPassword(id, password)) && rows == Applied(old(rows), actor, SetPassword(id, password))
    {
      if actor == "" || |password| < 12 || |password| > 72 { return Some(InvalidInput); }
      if id !in rows { return Some(NotFound); }
      rows := rows[id := rows[id].(password := password)];
      return None;
    }

    method ChangeDisabled(id: nat, disabled: bool, actor: string) returns (err: Option<Error>)
      modifies this
      ensures err == Refusal(old(rows), actor, SetDisabled(id, disabled)) && rows == Applied(old(rows), actor, SetDisabled(id, disabled))
    {
      if actor == "" { return Some(InvalidInput); }
      if id !in rows { return Some(NotFound); }
      var user := rows[id];
      if disabled && !user.disabled {
        err := RequireAnotherAdmin(user);
        if err.Some? { return; }
      }
      rows := rows[id := user.(disabled := disabled)];
      return None;
    }

    method Remove(id: nat, actor: string) returns (err: Option<Error>)
      modifies this
      ensures err == Refusal(old(rows), actor, Delete(id)) && rows == Applied(old(rows), actor, Delete(id))
    {
      if actor == "" { return Some(InvalidInput); }
      if id !in rows { return Some(NotFound); }
      err := RequireAnotherAdmin(rows[id]);
      if err.Some? { return; }
      rows := rows - {id};
    }

    // Seeds or repairs the bootstrap account only when nobody is an enabled administrator.
    method EnsureAdmin(password: string, freshId: nat) returns (seeded: bool, err: Option<Error>)
      requires freshId !in rows && Distinct(rows)
      modifies this
      ensures err.None? ==> Administered(rows) && Distinct(rows) && (seeded <==> !Administered(old(rows)))
      ensures err.Some? <==> !Administered(old(rows)) && !PasswordOk(password)
      ensures !seeded ==> rows == old(rows)
      ensures forall id :: id in old(rows) && old(rows)[id].username != BOOTSTRAP ==> id in rows && rows[id] == old(rows)[id]
    {
      ghost var admins := EnabledAdmins(rows);
      if EnabledCount(rows) > 0 {
        ghost var admin :| admin in admins;
        assert Administered(rows);
        return false, None;
      }
      assert admins == {};
      assert !Administered(rows) by { if id :| id in rows && EnabledAdmin(rows[id]) { assert id in admins; } }
      if !PasswordOk(password) { return false, Some(InvalidInput); }
      var id := freshId;
      if Taken(rows, BOOTSTRAP) {
        id :| id in rows && rows[id].username == BOOTSTRAP;
      }
      rows := rows[id := User(BOOTSTRAP, password, Admin, false)];
      assert EnabledAdmin(rows[id]);
      return true, None;
    }
  }
}
