/** The tables of the server on the heap (server.h, room.h): the master table, and for each room one table
    of members and one of guests.  No two of them share anything. */
module Tables {
  import opened Base
  import opened UsersTables
  import T = UserTables
  import P = Protocol

  datatype Room = Room(members: UsersTable, guests: UsersTable)

  /** The places where a table can be. */
  datatype Where = Master | MembersOf(room: string) | GuestsOf(room: string)

  class Store {
    const users: UsersTable
    var rooms: map<string, Room>
    ghost var Users: T.Table              // what the tables mean
    ghost var Rooms: map<string, P.Room>
    ghost var Repr: set<object>

    ghost predicate Has(w: Where)
      reads this
    {
      w.Master? || w.room in rooms
    }

    ghost function At(w: Where): UsersTable
      reads this
      requires Has(w)
    {
      match w
      case Master => users
      case MembersOf(r) => rooms[r].members
      case GuestsOf(r) => rooms[r].guests
    }

    ghost function View(w: Where): T.Table
      reads this
      requires rooms.Keys == Rooms.Keys && Has(w)
    {
      match w
      case Master => Users
      case MembersOf(r) => Rooms[r].members
      case GuestsOf(r) => Rooms[r].guests
    }

    ghost predicate Owned(w: Where)
      reads this, Repr
      requires Has(w)
    {
      At(w) in Repr && At(w).Repr <= Repr && this !in At(w).Repr
    }

    /** The tables are the store's own, and no two of them share anything. */
    ghost predicate Shape()
      reads this, Repr
    {
      && this in Repr
      && rooms.Keys == Rooms.Keys
      && (forall w :: Has(w) ==> Owned(w))
      && (forall w, w' :: Has(w) && Has(w') && w != w' ==> At(w).Repr !! At(w').Repr)
    }

    /** The table means what it should. */
    ghost predicate Right(w: Where)
      reads this, Repr
      requires rooms.Keys == Rooms.Keys && Has(w) && Owned(w)
    {
      At(w).Valid() && At(w).Contents == View(w)
    }

    ghost predicate Valid()
      reads this, Repr
      ensures Valid() ==> this in Repr
    {
      Shape() && forall w :: Has(w) ==> Right(w)
    }

    constructor ()
      ensures Valid() && fresh(Repr)
      ensures Users == T.EMPTY && Rooms == map[]
    {
      users := new UsersTable();
      rooms := map[];
      new;
      Users := T.EMPTY;
      Rooms := map[];
      Repr := {this} + users.Repr;
    }

    // -------------------------------------------------------------------------- one table

    /** The rooms with another table at this place. */
    ghost function WithTable(all: map<string, P.Room>, w: Where, table: T.Table): map<string, P.Room>
      requires w.Master? || w.room in all
    {
      match w
      case Master => all
      case MembersOf(r) => all[r := all[r].(members := table)]
      case GuestsOf(r) => all[r := all[r].(guests := table)]
    }

    /** Writes down what one table means now. */
    ghost method Note(w: Where)
      requires Shape() && Has(w) && At(w).Valid() && forall w' :: Has(w') && w' != w ==> Right(w')
      modifies this`Users, this`Rooms
      ensures Valid()
      ensures Users == if w.Master? then At(w).Contents else old(Users)
      ensures Rooms == WithTable(old(Rooms), w, At(w).Contents)
    {
      hide UsersTables.UsersTable.Valid;
      Rooms := WithTable(Rooms, w, At(w).Contents);
      Users := if w.Master? then At(w).Contents else Users;
      forall w' | Has(w')
        ensures Owned(w') && Right(w')
      {
        assert old(Has(w')) && At(w') == old(At(w'));
        assert old(Owned(w'));
        assert w' != w ==> old(Right(w'));
        assert At(w').Valid();
      }
      forall w', w'' | Has(w') && Has(w'') && w' != w''
        ensures At(w').Repr !! At(w'').Repr
      {
        assert old(Has(w') && Has(w''));
      }
    }

    method RemoveAt(table: UsersTable, ghost w: Where, name: string)
      requires Valid() && Has(w) && table == At(w)
      modifies Repr
      ensures Valid() && Repr == old(Repr) && rooms == old(rooms)
      ensures Users == if w.Master? then T.Remove(old(Users), name).0 else old(Users)
      ensures Rooms == WithTable(old(Rooms), w, T.Remove(old(View(w)), name).0)
    {
      hide T.Remove, UsersTables.UsersTable.Valid;
      var _ := table.Remove(name);
      assert Shape();
      Note(w);
    }

    method AddAt(table: UsersTable, ghost w: Where, name: string, fd: int, status: UserStatus) returns (added: bool)
      requires Valid() && Has(w) && table == At(w)
      modifies Repr
      ensures Valid() && fresh(Repr - old(Repr)) && rooms == old(rooms)
      ensures Users == if w.Master? then T.AddWithStatus(old(Users), name, fd, status).0 else old(Users)
      ensures Rooms == WithTable(old(Rooms), w, T.AddWithStatus(old(View(w)), name, fd, status).0)
      ensures added == T.AddWithStatus(old(View(w)), name, fd, status).1
    {
      hide T.AddWithStatus, UsersTables.UsersTable.Valid;
      added := table.AddWithStatus(name, fd, status);
      assert forall w' :: Has(w') && w' != w ==> At(w').Valid() && At(w').Contents == View(w');
      Repr := Repr + table.Repr;
      forall w' | Has(w')
        ensures Owned(w') && (w' != w ==> Right(w') && At(w').Repr !! table.Repr)
      {
        assert old(Has(w')) && At(w') == old(At(w'));
        assert old(Owned(w') && Right(w'));
      }
      forall w', w'' | Has(w') && Has(w'') && w' != w''
        ensures At(w').Repr !! At(w'').Repr
      {
        assert old(Has(w') && Has(w''));
      }
      Note(w);
    }

    method ChangeStatusAt(table: UsersTable, ghost w: Where, fd: int, status: UserStatus)
      requires Valid() && Has(w) && table == At(w)
      modifies Repr
      ensures Valid() && Repr == old(Repr) && rooms == old(rooms)
      ensures Users == if w.Master? then T.ChangeStatusByFd(old(Users), fd, status).0 else old(Users)
      ensures Rooms == WithTable(old(Rooms), w, T.ChangeStatusByFd(old(View(w)), fd, status).0)
    {
      hide T.ChangeStatusByFd, UsersTables.UsersTable.Valid;
      var _ := table.ChangeStatusByFd(fd, status);
      assert Shape();
      Note(w);
    }

    // ------------------------------------------------------------------------------ rooms

    /** The insertion that `room_table_add` makes: a room with two new tables. */
    method AddRoom(room: string)
      requires Valid() && room !in rooms
      modifies Repr
      ensures Valid() && fresh(Repr - old(Repr))
      ensures Users == old(Users) && rooms.Keys == old(rooms).Keys + {room}
      ensures Rooms == old(Rooms)[room := P.Room(T.EMPTY, T.EMPTY)]
    {
      hide UsersTables.UsersTable.Valid;
      var members := new UsersTable();
      var guests := new UsersTable();
      rooms := rooms[room := Room(members, guests)];
      Rooms := Rooms[room := P.Room(T.EMPTY, T.EMPTY)];
      Repr := Repr + members.Repr + guests.Repr;
      forall w | Has(w)
        ensures Owned(w) && Right(w)
      {
        if !w.Master? && w.room == room {
        } else {
          assert old(Has(w)) && At(w) == old(At(w));
          assert old(Owned(w) && Right(w));
          assert At(w).Valid();
        }
      }
      forall w, w' | Has(w) && Has(w') && w != w'
        ensures At(w).Repr !! At(w').Repr
      {
        assert w.Master? || w.room != room ==> old(Has(w) && Owned(w));
        assert w'.Master? || w'.room != room ==> old(Has(w') && Owned(w'));
      }
    }

    /** `room_table_remove`. */
    method DropRoom(room: string)
      requires Valid()
      modifies this
      ensures Valid() && Repr == old(Repr)
      ensures Users == old(Users) && Rooms == old(Rooms) - {room}
    {
      hide UsersTables.UsersTable.Valid;
      rooms := rooms - {room};
      Rooms := Rooms - {room};
      forall w | Has(w)
        ensures Owned(w) && Right(w)
      {
        assert old(Has(w)) && At(w) == old(At(w));
        assert old(Owned(w) && Right(w));
        assert At(w).Valid();
      }
      forall w, w' | Has(w) && Has(w') && w != w'
        ensures At(w).Repr !! At(w').Repr
      {
        assert old(Has(w) && Has(w'));
      }
    }

    // ------------------------------------------------------------------------------- reading

    /** A copy of the record under the descriptor, in the table at this place. */
    method FindByFd(table: UsersTable, ghost w: Where, fd: int) returns (r: Option<User>)
      requires Valid() && Has(w) && table == At(w)
      ensures r == T.FindByFd(View(w), fd)
    {
      hide UsersTables.UsersTable.Valid, T.FindByFd;
      assert Right(w);
      r := table.FindByFd(fd);
    }

    method FindByUsername(table: UsersTable, ghost w: Where, name: string) returns (r: Option<User>)
      requires Valid() && Has(w) && table == At(w)
      ensures r == T.FindByName(View(w), name)
    {
      hide UsersTables.UsersTable.Valid, T.FindByName;
      assert Right(w);
      r := table.FindByUsername(name);
    }
  }
}
