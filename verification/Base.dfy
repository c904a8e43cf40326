/** Values shared by every part of the chat server: options, user records and the size limits
    of names.  A `string` stands for a C string, one `char` for each byte. */
module Base {

  datatype Option<+T> = None | Some(value: T)

  const USERNAME_MAX := 8
  const ROOMNAME_MAX := 16

  datatype UserStatus = ACTIVE | AWAY | BUSY

  datatype User = User(name: string, fd: int, status: UserStatus)

  /** The first `n` bytes of a name, as `strndup` copies them. */
  function Truncate(s: string, n: nat): (r: string)
    ensures r <= s && |r| == if |s| <= n then |s| else n
  {
    if |s| <= n then s else s[..n]
  }

  /** The names `user_init` accepts. */
  predicate UsernameOk(name: string) {
    0 < |name| <= USERNAME_MAX
  }

  /** The names `room_init` accepts. */
  predicate RoomnameOk(name: string) {
    0 < |name| <= ROOMNAME_MAX
  }

  function StatusName(s: UserStatus): string {
    match s
    case ACTIVE => "ACTIVE"
    case AWAY => "AWAY"
    case BUSY => "BUSY"
  }

  function ParseStatus(text: string): Option<UserStatus> {
    if text == "ACTIVE" then Some(ACTIVE)
    else if text == "AWAY" then Some(AWAY)
    else if text == "BUSY" then Some(BUSY)
    else None
  }

  /** A status is read from exactly its own name. */
  lemma StatusHasOneName(text: string, status: UserStatus)
    ensures ParseStatus(text) == Some(status) <==> text == StatusName(status)
  {
    var n := StatusName(status);
    assert |n| == 4 ==> n[0] == 'A' || n[0] == 'B';
  }

  ghost predicate NoDuplicates<T>(s: seq<T>) {
    forall i, j :: 0 <= i < j < |s| ==> s[i] != s[j]
  }
}
