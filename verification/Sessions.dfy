/** The session store: an in-memory map, its sessions.json copy, and the operations on both
    (internal/middleware/auth.go, internal/middleware/sessions.go). Times are nanoseconds. */
module Sessions {
  import opened Util

  const IDLE_TTL: int := 24 * 3600 * SECOND
  const ABSOLUTE_TTL: int := 7 * 24 * 3600 * SECOND
  const PERSIST_STEP: int := 60 * SECOND

  /** created is None for a session stored before creation times were kept. */
  datatype Session = Session(id: string, userId: string, created: Option<int>, expires: int)

  datatype Caller = Caller(userId: string, admin: bool)

  type Store = map<string, Session>   // keyed by token hash

  /** How a write of sessions.json ends; its error is ignored by the program. */
  datatype WriteResult = Written | Kept | Torn

  // ----- what each operation does -----

  function Saved(mem: Store, file: Option<Store>, w: WriteResult): Option<Store> {
    match w
    case Written => Some(mem)
    case Kept => file
    case Torn => None
  }

  predicate Live(s: Session, now: int) {
    now <= s.expires && (s.created.Some? ==> now <= s.created.value + ABSOLUTE_TTL)
  }

  function Renewed(s: Session, now: int): Session {
    var e := now + IDLE_TTL;
    s.(expires := if s.created.Some? then Min(e, s.created.value + ABSOLUTE_TTL) else e)
  }

  function Identified(s: Session, h: string, ids: map<string, string>): Session {
    if s.id == "" && h in ids then s.(id := ids[h]) else s
  }

  function Loaded(file: Option<Store>, now: int, ids: map<string, string>): Store {
    if file.None? then map[]
    else map h | h in file.value && now < file.value[h].expires :: Identified(file.value[h], h, ids)
  }

  function Unexpired(mem: Store, now: int): Store { map h | h in mem && now <= mem[h].expires :: mem[h] }

  predicate SameIdentity(caller: Option<Caller>, s: Session) {
    caller.Some? &&
    if caller.value.userId != "" then s.userId == caller.value.userId
    else s.userId == "" && caller.value.admin
  }

  predicate MayRevoke(caller: Option<Caller>, id: string, s: Session) {
    s.id == id && ((caller.Some? && caller.value.admin) || SameIdentity(caller, s))
  }

  function OthersOf(mem: Store, caller: Option<Caller>, current: string): set<string> {
    set h | h in mem && h != current && SameIdentity(caller, mem[h])
  }

  // ----- whose sessions a caller ends, said by user ids -----

  /** Ending the others of a caller with a user id ends that user's sessions but the current one, and
      nobody else's. */
  lemma OthersOfUser(mem: Store, caller: Caller, current: string, h: string)
    requires caller.userId != "" && h in mem
    ensures h in OthersOf(mem, Some(caller), current) <==> h != current && mem[h].userId == caller.userId
  {
  }

  /** For an administrator without a user id those are the sessions without one; a caller with neither,
      or not signed in, ends nothing. */
  lemma OthersOfNobody(mem: Store, caller: Option<Caller>, current: string, h: string)
    requires (caller.None? || caller.value.userId == "") && h in mem
    ensures h in OthersOf(mem, caller, current) <==>
      caller.Some? && caller.value.admin && h != current && mem[h].userId == ""
  {
  }

  /** Whose session of a given id a caller may end: an administrator anybody's, a user the user's own. */
  lemma RevocableIff(caller: Option<Caller>, id: string, s: Session)
    ensures MayRevoke(caller, id, s) <==>
      && s.id == id && caller.Some?
      && (caller.value.admin || (caller.value.userId != "" && s.userId == caller.value.userId))
  {
  }

  /** A landed save followed by a new process gives back exactly the unexpired sessions, changed
      at most in a missing id; a lost save gives back what the file said before, a torn one nothing. */
  lemma SavedReadsBack(mem: Store, file: Option<Store>, w: WriteResult, now: int, ids: map<string, string>)
    ensures var back := Loaded(Saved(mem, file, w), now, ids);
      && (w.Written? ==>
          && (forall h :: h in back <==> h in mem && now < mem[h].expires)
          && (forall h :: h in back ==> back[h] == mem[h].(id := back[h].id))
          && (forall h :: h in back && (mem[h].id != "" || h !in ids) ==> back[h] == mem[h])
          && (forall h :: h in back && mem[h].id == "" && h in ids ==> back[h].id == ids[h]))
      && (w.Kept? ==> back == Loaded(file, now, ids))
      && (w.Torn? ==> back == map[])
  {
  }
}
