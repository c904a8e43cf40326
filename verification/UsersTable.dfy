/** The users table on the heap (users_table.c): two hash tables whose entries are references to the
    same records, so that a status written through one index is read through the other. */
module UsersTables {
  import opened Base
  import T = UserTables

  class UserRecord {
    const name: string
    const fd: int
    var status: UserStatus

    constructor (name: string, fd: int, status: UserStatus)
      ensures this.name == name && this.fd == fd && this.status == status
    {
      this.name := name;
      this.fd := fd;
      this.status := status;
    }

    /** The copy that `*out_user = *found` makes. */
    function Value(): User
      reads this
    {
      User(name, fd, status)
    }
  }

  class UsersTable {
    var table: map<string, UserRecord>
    var tableByFd: map<int, UserRecord>
    ghost var Contents: T.Table  // what the table means
    ghost var Repr: set<object>

    ghost predicate Valid()
      reads this, Repr
      ensures Valid() ==> this in Repr
    {
      && this in Repr
      && (forall n :: n in table ==> table[n] in Repr && table[n].name == n)
      && (forall fd :: fd in tableByFd ==>
           && tableByFd[fd].fd == fd
           && tableByFd[fd].name in table
           && table[tableByFd[fd].name] == tableByFd[fd])
      && Contents.byName.Keys == table.Keys
      && (forall n :: n in table ==> Contents.byName[n] == table[n].Value())
      && Contents.byFd.Keys == tableByFd.Keys
      && (forall fd :: fd in tableByFd ==> Contents.byFd[fd] == tableByFd[fd].name)
    }

    constructor ()
      ensures Valid() && fresh(Repr)
      ensures Contents == T.EMPTY
    {
      table := map[];
      tableByFd := map[];
      Contents := T.EMPTY;
      Repr := {this};
    }

    method Add(username: string, fd: int) returns (ok: bool)
      requires Valid()
      modifies this
      ensures Valid() && fresh(Repr - old(Repr))
      ensures (Contents, ok) == T.Add(old(Contents), username, fd)
    {
      ok := AddWithStatus(username, fd, ACTIVE);
    }

    method AddWithStatus(username: string, fd: int, status: UserStatus) returns (ok: bool)
      requires Valid()
      modifies this
      ensures Valid() && fresh(Repr - old(Repr))
      ensures (Contents, ok) == T.AddWithStatus(old(Contents), username, fd, status)
    {
      if !UsernameOk(username) {
        return false;
      }
      var user := new UserRecord(username, fd, status);
      if username in table {
        return false;
      }
      Insert(user);
      return true;
    }

    /** The two insertions that `add` makes: one reference for each index. */
    method Insert(user: UserRecord)
      requires Valid() && user.name !in table
      modifies this
      ensures Valid() && Repr == old(Repr) + {user}
      ensures Contents == T.Table(old(Contents).byName[user.name := user.Value()],
              old(Contents).byFd[user.fd := user.name])
    {
      table := table[user.name := user];
      tableByFd := tableByFd[user.fd := user];
      Repr := Repr + {user};
      Contents := T.Table(Contents.byName[user.name := user.Value()], Contents.byFd[user.fd := user.name]);
    }

    method ContainsByUsername(username: string) returns (r: bool)
      requires Valid()
      ensures r == T.FindByName(Contents, username).Some?
    {
      r := username in table;
    }

    method ContainsByFd(fd: int) returns (r: bool)
      requires Valid()
      ensures r == T.FindByFd(Contents, fd).Some?
    {
      r := fd in tableByFd;
    }

    method FindByUsername(username: string) returns (r: Option<User>)
      requires Valid()
      ensures r == T.FindByName(Contents, username)
    {
      if username in table {
        r := Some(table[username].Value());
      } else {
        r := None;
      }
    }

    method FindByFd(fd: int) returns (r: Option<User>)
      requires Valid()
      ensures r == T.FindByFd(Contents, fd)
    {
      if fd in tableByFd {
        r := Some(tableByFd[fd].Value());
      } else {
        r := None;
      }
    }

    method ChangeStatusByUsername(username: string, status: UserStatus) returns (ok: bool)
      requires Valid()
      modifies Repr
      ensures Valid() && Repr == old(Repr)
      ensures (Contents, ok) == T.ChangeStatusByName(old(Contents), username, status)
    {
      ok := username in table;
      if ok {
        table[username].status := status;
      }
      Contents := T.ChangeStatusByName(Contents, username, status).0;
    }

    method ChangeStatusByFd(fd: int, status: UserStatus) returns (ok: bool)
      requires Valid()
      modifies Repr
      ensures Valid() && Repr == old(Repr)
      ensures (Contents, ok) == T.ChangeStatusByFd(old(Contents), fd, status)
    {
      ok := fd in tableByFd;
      if ok {
        tableByFd[fd].status := status;
      }
      Contents := T.ChangeStatusByFd(Contents, fd, status).0;
    }

    method Remove(username: string) returns (ok: bool)
      requires Valid()
      modifies this
      ensures Valid() && Repr == old(Repr)
      ensures (Contents, ok) == T.Remove(old(Contents), username)
    {
      if username !in table {
        return false;
      }
      var found := table[username];
      tableByFd := tableByFd - {found.fd};
      table := table - {username};
      Contents := T.Remove(Contents, username).0;
      return true;
    }

    /** The keys an iteration visits. */
    method Usernames() returns (names: set<string>)
      requires Valid()
      ensures names == Contents.byName.Keys
    {
      names := table.Keys;
    }
  }
}
