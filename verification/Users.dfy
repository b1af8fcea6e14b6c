/** The credential table of src/users.c. C strings are written without their terminator. */
module Users {
  import opened Common

  const MAX_USER_LEN: nat := 10
  const MAX_PASS_LEN: nat := 20
  const MAX_USERS: nat := 20
  const COLON: byte := 0x3A

  datatype User = User(name: seq<byte>, pass: seq<byte>)

  /** isprint() in the C locale */
  predicate Printable(b: byte) {
    0x20 <= b <= 0x7E
  }

  /** A user name or a password that the table takes: strictly shorter than its maximum. */
  predicate ValidField(s: seq<byte>, max: nat) {
    |s| < max && forall b :: b in s ==> Printable(b) && b != COLON
  }

  predicate NewName(users: seq<User>, name: seq<byte>) {
    forall i :: 0 <= i < |users| ==> users[i].name != name
  }

  /** What every table reachable through add_user satisfies. */
  predicate ValidTable(users: seq<User>) {
    && |users| <= MAX_USERS
    && (forall i :: 0 <= i < |users| ==>
          ValidField(users[i].name, MAX_USER_LEN) && ValidField(users[i].pass, MAX_PASS_LEN))
    && (forall i, j :: 0 <= i < j < |users| ==> users[i].name != users[j].name)
  }

  /** strchr: the user name is what precedes the first colon. */
  function Split(userpass: seq<byte>): (r: Option<User>)
    ensures r.None? <==> COLON !in userpass
    ensures r.Some? ==> userpass == r.value.name + [COLON] + r.value.pass && COLON !in r.value.name
  {
    if userpass == [] then None
    else if userpass[0] == COLON then Some(User([], userpass[1..]))
    else
      match Split(userpass[1..])
      case None => None
      case Some(u) => Some(User([userpass[0]] + u.name, u.pass))
  }

  predicate Admits(users: seq<User>, userpass: seq<byte>) {
    && Split(userpass).Some?
    && var u := Split(userpass).value;
       && |users| < MAX_USERS
       && ValidField(u.name, MAX_USER_LEN) && ValidField(u.pass, MAX_PASS_LEN)
       && NewName(users, u.name)
  }

  lemma {:induction false} SplitAt(name: seq<byte>, pass: seq<byte>)
    requires 0x3A !in name
    ensures Split(name + [0x3A] + pass) == Some(User(name, pass))
  {
    var s := name + [0x3A] + pass;
    if name == [] {
      assert s[1..] == pass;
    } else {
      assert s[0] == name[0] && name[0] in name;
      assert s[1..] == name[1..] + [0x3A] + pass;
      SplitAt(name[1..], pass);
      assert [name[0]] + name[1..] == name;
    }
  }

  /** A printable character that is no colon. */
  predicate Plain(s: seq<byte>) {
    forall i :: 0 <= i < |s| ==> 0x20 <= s[i] <= 0x7E && s[i] != 0x3A
  }

  /**
   * Which lines add a user: those with a colon, a new name of at most 9 and a password of at
   * most 19 printable characters without colons, while there are fewer than 20 users.
   */
  lemma AdmittedExactly(users: seq<User>, name: seq<byte>, pass: seq<byte>)
    requires 0x3A !in name
    ensures Admits(users, name + [0x3A] + pass) <==>
            && |users| < 20 && |name| <= 9 && |pass| <= 19 && Plain(name) && Plain(pass)
            && forall u :: u in users ==> u.name != name
    ensures !Admits(users, name)
  {
    SplitAt(name, pass);
    assert Split(name).None?;
    PlainFields(name, MAX_USER_LEN);
    PlainFields(pass, MAX_PASS_LEN);
    if NewName(users, name) {
      assert forall u :: u in users ==> u.name != name;
    } else {
      var i :| 0 <= i < |users| && users[i].name == name;
      assert users[i] in users;
    }
  }

  lemma PlainFields(s: seq<byte>, max: nat)
    ensures ValidField(s, max) <==> |s| < max && Plain(s)
  {
    if ValidField(s, max) {
      forall i | 0 <= i < |s| ensures 0x20 <= s[i] <= 0x7E && s[i] != 0x3A {
        assert s[i] in s;
      }
    }
  }

  function Added(users: seq<User>, userpass: seq<byte>): (r: seq<User>)
    ensures ValidTable(users) ==> ValidTable(r)
    ensures users <= r
  {
    if Admits(users, userpass) then users + [Split(userpass).value] else users
  }

  /** What try_credentials decides. */
  predicate Authenticates(users: seq<User>, name: seq<byte>, pass: seq<byte>) {
    User(name, pass) in users
  }

  /** The table after a history of add_user calls, the last of them last. */
  function Table(adds: seq<seq<byte>>): (users: seq<User>)
    ensures ValidTable(users)
  {
    if adds == [] then [] else Added(Table(adds[..|adds| - 1]), adds[|adds| - 1])
  }

  /** The i-th call carried this pair and succeeded. */
  predicate AddedAt(adds: seq<seq<byte>>, i: int, user: User) {
    0 <= i < |adds| && Admits(Table(adds[..i]), adds[i]) && Split(adds[i]) == Some(user)
  }

  /**
   * Over every history of add_user calls: a pair authenticates exactly when one of
   * the calls carried it and succeeded.
   */
  lemma {:induction false} CredentialsAreTheAdded(adds: seq<seq<byte>>, name: seq<byte>, pass: seq<byte>)
    ensures Authenticates(Table(adds), name, pass) <==> exists i :: AddedAt(adds, i, User(name, pass))
    decreases |adds|
  {
    if adds == [] {
      return;
    } else {
      hide Table, AddedAt;
      var n, user := |adds| - 1, User(name, pass);
      var init := adds[..n];
      CredentialsAreTheAdded(init, name, pass);
      LastAdded(adds, user);
      forall i
        ensures AddedAt(adds, i, user) <==> AddedAt(init, i, user) || (i == n && AddedAt(adds, n, user))
      {
        AddedBefore(adds, i, user);
      }
    }
  }

  lemma AddedBefore(adds: seq<seq<byte>>, i: int, user: User)
    requires adds != []
    ensures var n := |adds| - 1;
            AddedAt(adds, i, user) <==> AddedAt(adds[..n], i, user) || (i == n && AddedAt(adds, n, user))
  {
    var n := |adds| - 1;
    if 0 <= i < n {
      assert adds[..n][..i] == adds[..i];
    }
  }

  lemma LastAdded(adds: seq<seq<byte>>, user: User)
    requires adds != []
    ensures var n := |adds| - 1;
            user in Table(adds) <==> user in Table(adds[..n]) || AddedAt(adds, n, user)
  {
  }

  /**
   * What a password on the wire needs in order to match: only the bytes before a NUL
   * are compared. So "exactly the stored pair" holds of the wire bytes if and only if
   * they are free of NULs.
   */
  lemma WireCredentials(users: seq<User>, name: seq<byte>, pass: seq<byte>)
    requires ValidTable(users) && Authenticates(users, CString(name), CString(pass))
    ensures Authenticates(users, name, pass) <==> 0 !in name && 0 !in pass
  {
    var u := User(CString(name), CString(pass));
    if 0 !in name { CStringOfPlain(name, []); }
    if 0 !in pass { CStringOfPlain(pass, []); }
    if Authenticates(users, name, pass) {
      assert User(name, pass) in users;
      assert 0 !in name && 0 !in pass;
    }
  }

  /** Every stored pair has such relatives: any bytes after a NUL in either field. */
  lemma NulCarryingPair(users: seq<User>, user: User, extra: seq<byte>, more: seq<byte>)
    requires ValidTable(users) && user in users
    ensures var name, pass := user.name + [0] + extra, user.pass + [0] + more;
            Authenticates(users, CString(name), CString(pass)) && !Authenticates(users, name, pass)
  {
    CStringOfPlain(user.name, extra);
    CStringOfPlain(user.pass, more);
    var name := user.name + [0] + extra;
    assert name[|user.name|] == 0;
    WireCredentials(users, name, user.pass + [0] + more);
  }

  // ---------------------------------------------------------------------------

  /** The scan stops at the terminator, at the limit, or at the first refused character. */
  method CheckValid(s: seq<byte>, len: nat) returns (ok: bool)
    ensures ok <==> ValidField(s, len)
  {
    var i := 0;
    while i < |s| && i < len
      invariant 0 <= i <= |s| && i <= len
      invariant forall j :: 0 <= j < i ==> Printable(s[j]) && s[j] != COLON
    {
      if s[i] == COLON || !Printable(s[i]) {
        assert s[i] in s;
        return false;
      }
      i := i + 1;
    }
    return i < len;
  }

  class UserTable {
    var users: seq<User>

    constructor ()
      ensures users == [] && ValidTable(users)
    {
      users := [];
    }

    method CheckNewUser(name: seq<byte>) returns (ok: bool)
      ensures ok <==> NewName(users, name)
    {
      var i := 0;
      while i < |users|
        invariant 0 <= i <= |users|
        invariant forall j :: 0 <= j < i ==> users[j].name != name
      {
        if users[i].name == name {
          return false;
        }
        i := i + 1;
      }
      return true;
    }

    /** `arg` is what the caller's string has become: add_user ends it at the colon. */
    method AddUser(userpass: seq<byte>) returns (ok: bool, arg: seq<byte>)
      requires ValidTable(users)
      modifies this
      ensures ValidTable(users) && users == Added(old(users), userpass)
      ensures ok <==> Admits(old(users), userpass)
      ensures arg == if COLON in userpass then Split(userpass).value.name else userpass
    {
      var split := Split(userpass);
      if split.None? {
        return false, userpass;
      }
      arg := split.value.name;
      if |users| == MAX_USERS {
        return false, arg;
      }
      var nameOk := CheckValid(split.value.name, MAX_USER_LEN);
      var passOk := CheckValid(split.value.pass, MAX_PASS_LEN);
      var isNew := CheckNewUser(split.value.name);
      if !nameOk || !passOk || !isNew {
        return false, arg;
      }
      users := users + [split.value];
      ok := true;
    }

    method TryCredentials(name: seq<byte>, pass: seq<byte>) returns (ok: bool)
      ensures ok <==> Authenticates(users, name, pass)
    {
      var i := 0;
      while i < |users|
        invariant 0 <= i <= |users|
        invariant forall j :: 0 <= j < i ==> users[j] != User(name, pass)
      {
        if users[i].name == name && users[i].pass == pass {
          return true;
        }
        i := i + 1;
      }
      return false;
    }
  }
}
