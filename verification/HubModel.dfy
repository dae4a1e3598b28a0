/** The WebSocket hub as a state machine: every region under the hub's lock, and
    every receive or reply on a client's channel, is one step. `C` identifies clients. */
module HubModel {

  type Message = string

  /** The capacity of a client's Send channel. */
  const CAPACITY: nat := 256

  /** A client that was registered: its Send channel, what the write pump has
      taken from it, and the client's own set of rooms. */
  datatype Client = Client(queue: seq<Message>, open: bool, taken: seq<Message>, rooms: set<string>)

  /** `live` is the hub's `clients`; `emits` are emissions waiting for the lock. */
  datatype Hub<C(==)> = Hub(
    live: set<C>,
    rooms: map<string, set<C>>,
    known: map<C, Client>,
    emits: multiset<(string, Message)>)

  /** `relocks` holds for the code as it is written: when the unregister case takes a
      client out of a room, it waits for the lock that it holds itself. */
  datatype Event<C(==)> =
    | Register(c: C, connect: Message)
    | Unregister(c: C, relocks: bool)
    | Broadcast(m: Message)
    | Join(c: C, room: string)
    | Leave(c: C, room: string)
    | RequestEmit(room: string, m: Message)
    | Emit(room: string, m: Message)
    | Reply(c: C, m: Message)
    | Drain(c: C)
    | Cleanup

  /** `Blocked` is for ever, with the lock held. */
  datatype Outcome<C(==)> = Next(h: Hub<C>) | Blocked(h: Hub<C>) | CloseOfClosed | SendOnClosed

  function Start<C>(): Hub<C> {
    Hub({}, map[], map[], multiset{})
  }

  // ---- Rooms

  function WithMember<C>(rooms: map<string, set<C>>, room: string, c: C): map<string, set<C>> {
    rooms[room := (if room in rooms then rooms[room] else {}) + {c}]
  }

  /** Members removed from a room; a room left empty disappears. */
  function WithoutMembers<C>(rooms: map<string, set<C>>, room: string, gone: set<C>): map<string, set<C>> {
    map r | r in rooms && (r == room ==> rooms[r] - gone != {}) :: if r == room then rooms[r] - gone else rooms[r]
  }

  function Unlisted<C>(members: set<C>, room: string, lists: map<C, set<string>>): set<C> {
    set c | c in members && !(c in lists && room in lists[c])
  }

  predicate Listed<C>(room: string, lists: map<C, set<string>>) {
    exists c | c in lists :: room in lists[c]
  }

  /** Members removed from every room in their own list; rooms that leaves empty disappear. */
  function WithoutListed<C>(rooms: map<string, set<C>>, lists: map<C, set<string>>): map<string, set<C>> {
    map r | r in rooms && (Listed(r, lists) ==> Unlisted(rooms[r], r, lists) != {}) :: Unlisted(rooms[r], r, lists)
  }

  /** One member removed from the rooms of a list. */
  function WithoutClient<C>(rooms: map<string, set<C>>, c: C, list: set<string>): map<string, set<C>> {
    var none: map<C, set<string>> := map[];
    WithoutListed(rooms, none[c := list])
  }

  lemma {:induction false} Stays<C>(rooms: map<string, set<C>>, room: string, gone: set<C>, r: string, c: C)
    requires r in rooms && c in rooms[r] && !(r == room && c in gone)
    ensures r in WithoutMembers(rooms, room, gone) && c in WithoutMembers(rooms, room, gone)[r]
  {
    assert c in rooms[r] - (if r == room then gone else {});
  }

  lemma {:induction false} OthersStay<C>(rooms: map<string, set<C>>, room: string, gone: set<C>, r: string, c: C)
    ensures r in WithoutMembers(rooms, room, gone) && c in WithoutMembers(rooms, room, gone)[r] <==>
            r in rooms && c in rooms[r] && !(r == room && c in gone)
  {
    if r in rooms && c in rooms[r] && !(r == room && c in gone) {
      Stays(rooms, room, gone, r, c);
    }
  }

  lemma {:induction false} StaysUnlisted<C>(rooms: map<string, set<C>>, lists: map<C, set<string>>, r: string, c: C)
    requires r in rooms && c in rooms[r] && !(c in lists && r in lists[c])
    ensures r in WithoutListed(rooms, lists) && c in WithoutListed(rooms, lists)[r]
  {
    assert c in Unlisted(rooms[r], r, lists);
  }

  // ---- Steps

  predicate Full(x: Client) {
    |x.queue| >= CAPACITY
  }

  function Queued(x: Client, m: Message): Client {
    x.(queue := x.queue + [m])
  }

  /** A broadcast reaching a client: queued, or closed when there is no space. */
  function Delivered(x: Client, m: Message): Client {
    if Full(x) then x.(open := false) else Queued(x, m)
  }

  /** What receiving from a channel takes away: the oldest message, if any. */
  function Stolen(x: Client): Client {
    if x.queue == [] then x else x.(queue := x.queue[1..])
  }

  /** An emit reaching a member: queued, or removed from the room when there is no
      space; looking whether the channel is closed then takes its oldest message. */
  function Emitted(x: Client, room: string, m: Message): Client {
    if Full(x) then Stolen(x).(rooms := x.rooms - {room}) else Queued(x, m)
  }

  function RegisterStep<C>(h: Hub<C>, c: C, connect: Message): Outcome<C> {
    Next(h.(live := h.live + {c}, known := h.known[c := Client([connect], true, [], {})]))
  }

  function UnregisterStep<C>(h: Hub<C>, c: C, relocks: bool): Outcome<C>
    requires c in h.known
  {
    if c !in h.live then Next(h)
    else if !h.known[c].open then CloseOfClosed
    else if relocks && h.known[c].rooms != {} then
      Blocked(h.(live := h.live - {c}, known := h.known[c := h.known[c].(open := false)]))
    else Next(h.(
      live := h.live - {c},
      rooms := WithoutClient(h.rooms, c, h.known[c].rooms),
      known := h.known[c := h.known[c].(open := false, rooms := {})]))
  }

  /** Sends to every live client; one whose channel is full is closed and dropped. */
  function BroadcastStep<C>(h: Hub<C>, m: Message): Outcome<C>
    requires h.live <= h.known.Keys
  {
    if exists c | c in h.live :: !h.known[c].open then SendOnClosed
    else
      Next(h.(
        live := (set c | c in h.live && !Full(h.known[c])),
        known := (map c | c in h.known ::
          if c in h.live then Delivered(h.known[c], m) else h.known[c])))
  }

  function JoinStep<C>(h: Hub<C>, c: C, room: string): Outcome<C>
    requires c in h.known
  {
    Next(h.(rooms := WithMember(h.rooms, room, c),
            known := h.known[c := h.known[c].(rooms := h.known[c].rooms + {room})]))
  }

  function LeaveStep<C>(h: Hub<C>, c: C, room: string): Outcome<C>
    requires c in h.known
  {
    Next(h.(rooms := WithoutMembers(h.rooms, room, {c}),
            known := h.known[c := h.known[c].(rooms := h.known[c].rooms - {room})]))
  }

  function RequestEmitStep<C>(h: Hub<C>, room: string, m: Message): Outcome<C> {
    if room !in h.rooms || h.rooms[room] == {} then Next(h)
    else Next(h.(emits := h.emits + multiset{(room, m)}))
  }

  /** Sends to every member of the room; a member whose channel is full loses its
      oldest message and is removed from the hub and from this room. */
  function EmitStep<C>(h: Hub<C>, room: string, m: Message): Outcome<C>
    requires room in h.rooms ==> h.rooms[room] <= h.known.Keys
  {
    var emits := h.emits - multiset{(room, m)};
    if room !in h.rooms then Next(h.(emits := emits))
    else if exists c | c in h.rooms[room] :: !h.known[c].open then SendOnClosed
    else
      var dead := set c | c in h.rooms[room] && Full(h.known[c]);
      Next(Hub(
        h.live - dead,
        WithoutMembers(h.rooms, room, dead),
        (map c | c in h.known :: if c in h.rooms[room] then Emitted(h.known[c], room, m) else h.known[c]),
        emits))
  }

  function ReplyStep<C>(h: Hub<C>, c: C, m: Message): Outcome<C>
    requires c in h.known
  {
    if !h.known[c].open then SendOnClosed
    else Next(h.(known := h.known[c := Queued(h.known[c], m)]))
  }

  function DrainStep<C>(h: Hub<C>, c: C): Outcome<C>
    requires c in h.known && h.known[c].queue != []
  {
    var x := h.known[c];
    Next(h.(known := h.known[c := x.(queue := x.queue[1..], taken := x.taken + [x.queue[0]])]))
  }

  /** Takes a live client for dead when something can be received from its channel. */
  function CleanupStep<C>(h: Hub<C>): Outcome<C>
    requires h.live <= h.known.Keys
  {
    var dead := set c | c in h.live && (h.known[c].queue != [] || !h.known[c].open);
    Next(h.(
      live := h.live - dead,
      rooms := WithoutListed(h.rooms, (map c | c in dead :: h.known[c].rooms)),
      known := (map c | c in h.known :: if c in dead then Stolen(h.known[c]) else h.known[c])))
  }

  predicate InHub<C>(h: Hub<C>) {
    h.live <= h.known.Keys && forall r | r in h.rooms :: h.rooms[r] <= h.known.Keys
  }

  /** A client registers once; a reply waits for space, a receive for a message. */
  predicate Enabled<C>(h: Hub<C>, e: Event<C>) {
    match e
    case Register(c, _) => c !in h.known
    case Unregister(c, _) => c in h.known
    case Join(c, room) => c in h.known && room != ""
    case Leave(c, room) => c in h.known && room != ""
    case Emit(room, m) => (room, m) in h.emits
    case Reply(c, _) => c in h.known && (h.known[c].open ==> !Full(h.known[c]))
    case Drain(c) => c in h.known && h.known[c].queue != []
    case _ => true
  }

  function Step<C>(h: Hub<C>, e: Event<C>): Outcome<C>
    requires InHub(h) && Enabled(h, e)
  {
    match e
    case Register(c, connect) => RegisterStep(h, c, connect)
    case Unregister(c, relocks) => UnregisterStep(h, c, relocks)
    case Broadcast(m) => BroadcastStep(h, m)
    case Join(c, room) => JoinStep(h, c, room)
    case Leave(c, room) => LeaveStep(h, c, room)
    case RequestEmit(room, m) => RequestEmitStep(h, room, m)
    case Emit(room, m) => EmitStep(h, room, m)
    case Reply(c, m) => ReplyStep(h, c, m)
    case Drain(c) => DrainStep(h, c)
    case Cleanup => CleanupStep(h)
  }

  // ---- The invariant

  ghost predicate Inv<C>(h: Hub<C>) {
    && InHub(h)
    && (forall r | r in h.rooms :: h.rooms[r] != {})
    && (forall r, c | r in h.rooms && c in h.rooms[r] :: r in h.known[c].rooms)
    && (forall c, r | c in h.live && r in h.known[c].rooms :: r in h.rooms && c in h.rooms[r])
    && (forall c | c in h.live :: h.known[c].open)
    && (forall c | c in h.known :: |h.known[c].queue| <= CAPACITY)
  }

  lemma {:induction false} StepKeepsInv<C>(h: Hub<C>, e: Event<C>)
    requires Inv(h) && Enabled(h, e) && Step(h, e).Next?
    ensures Inv(Step(h, e).h)
  {
    match e {
      case Unregister(c, relocks) => UnregisterKeepsInv(h, c, relocks);
      case Emit(room, m) => EmitKeepsInv(h, room, m);
      case Cleanup => CleanupKeepsInv(h);
      case Leave(c, room) => LeaveKeepsInv(h, c, room);
      case Join(c, room) => JoinKeepsInv(h, c, room);
      case Broadcast(m) => BroadcastKeepsInv(h, m);
      case _ =>
        hide EmitStep, UnregisterStep, CleanupStep, LeaveStep, JoinStep, BroadcastStep;
    }
  }

  lemma {:induction false} JoinKeepsInv<C>(h: Hub<C>, c: C, room: string)
    requires Inv(h) && c in h.known
    ensures Inv(JoinStep(h, c, room).h)
  {
  }

  lemma {:induction false} BroadcastKeepsInv<C>(h: Hub<C>, m: Message)
    requires Inv(h) && BroadcastStep(h, m).Next?
    ensures Inv(BroadcastStep(h, m).h)
  {
  }

  lemma {:induction false} UnregisterKeepsInv<C>(h: Hub<C>, c: C, relocks: bool)
    requires Inv(h) && c in h.known && UnregisterStep(h, c, relocks).Next?
    ensures Inv(UnregisterStep(h, c, relocks).h)
  {
    if c in h.live {
      var h' := UnregisterStep(h, c, relocks).h;
      forall x, r | x in h'.live && r in h'.known[x].rooms
        ensures r in h'.rooms && x in h'.rooms[r]
      {
        StaysUnlisted(h.rooms, map[][c := h.known[c].rooms], r, x);
      }
    }
  }

  lemma {:induction false} EmitKeepsInv<C>(h: Hub<C>, room: string, m: Message)
    requires Inv(h) && EmitStep(h, room, m).Next?
    ensures Inv(EmitStep(h, room, m).h)
  {
    var h' := EmitStep(h, room, m).h;
    if room in h.rooms {
      var dead := set c | c in h.rooms[room] && Full(h.known[c]);
      forall x, r | x in h'.live && r in h'.known[x].rooms
        ensures r in h'.rooms && x in h'.rooms[r]
      {
        Stays(h.rooms, room, dead, r, x);
      }
    }
  }

  lemma {:induction false} LeaveKeepsInv<C>(h: Hub<C>, c: C, room: string)
    requires Inv(h) && c in h.known
    ensures Inv(LeaveStep(h, c, room).h)
  {
    var h' := LeaveStep(h, c, room).h;
    forall x, r | x in h'.live && r in h'.known[x].rooms
      ensures r in h'.rooms && x in h'.rooms[r]
    {
      Stays(h.rooms, room, {c}, r, x);
    }
  }

  lemma {:induction false} CleanupKeepsInv<C>(h: Hub<C>)
    requires Inv(h)
    ensures Inv(CleanupStep(h).h)
  {
    var h' := CleanupStep(h).h;
    var dead := set c | c in h.live && (h.known[c].queue != [] || !h.known[c].open);
    forall x, r | x in h'.live && r in h'.known[x].rooms
      ensures r in h'.rooms && x in h'.rooms[r]
    {
      StaysUnlisted(h.rooms, map c | c in dead :: h.known[c].rooms, r, x);
    }
  }

  // ---- Panics

  /** Closing a closed channel cannot happen; sending on one happens exactly when a
      room has a member that was closed elsewhere, or such a client is answered. */
  lemma {:induction false} PanicsExactly<C>(h: Hub<C>, e: Event<C>)
    requires Inv(h) && Enabled(h, e)
    ensures Step(h, e) != CloseOfClosed
    ensures Step(h, e) == SendOnClosed <==>
      match e
      case Emit(room, _) => room in h.rooms && exists c | c in h.rooms[room] :: !h.known[c].open
      case Reply(c, _) => !h.known[c].open
      case _ => false
  {
  }

  /** The unregister case waits for its own lock exactly when the client is live and in
      a room. The client is then closed and still a member there. */
  lemma {:induction false} BlocksExactly<C>(h: Hub<C>, e: Event<C>)
    requires Inv(h) && Enabled(h, e)
    ensures Step(h, e).Blocked? <==> e.Unregister? && e.relocks && e.c in h.live && h.known[e.c].rooms != {}
    ensures Step(h, e).Blocked? ==>
      exists r | r in Step(h, e).h.rooms :: e.c in Step(h, e).h.rooms[r] && !Step(h, e).h.known[e.c].open
  {
    if Step(h, e).Blocked? {
      var r :| r in h.known[e.c].rooms;
      assert r in Step(h, e).h.rooms;
    }
  }

  /** A broadcast closes a full client but leaves it in its rooms: the next emit there panics. */
  lemma {:induction false} EvictedMemberPanics<C>(h: Hub<C>, c: C, room: string, m: Message, n: Message)
    requires Inv(h) && c in h.live && Full(h.known[c]) && room in h.known[c].rooms && (room, n) in h.emits
    ensures Step(h, Broadcast(m)).Next?
    ensures Step(Step(h, Broadcast(m)).h, Emit(room, n)) == SendOnClosed
  {
    var h' := Step(h, Broadcast(m)).h;
    assert c in h'.rooms[room] && !h'.known[c].open;
  }

  // ---- Runs

  /** The states a run goes through that neither panics nor blocks. */
  ghost predicate IsRun<C>(states: seq<Hub<C>>, events: seq<Event<C>>) {
    && |states| == |events| + 1
    && states[0] == Start<C>()
    && forall i | 0 <= i < |events| ::
         InHub(states[i]) && Enabled(states[i], events[i]) && Step(states[i], events[i]) == Next(states[i + 1])
  }

  /** What a step owes a client: its own connect message and replies, every
      broadcast, and every emit to a room that has it as a member. */
  function Owed<C>(h: Hub<C>, e: Event<C>, c: C): seq<Message> {
    match e
    case Register(c', connect) => if c' == c then [connect] else []
    case Broadcast(m) => if c in h.known then [m] else []
    case Emit(room, m) => if room in h.rooms && c in h.rooms[room] then [m] else []
    case Reply(c', m) => if c' == c then [m] else []
    case _ => []
  }

  ghost predicate Complete<C>(h: Hub<C>, c: C, owed: seq<Message>)
    requires c in h.known
  {
    h.known[c].taken + h.known[c].queue == owed
  }

  lemma {:induction false} StepDelivers<C>(h: Hub<C>, e: Event<C>, c: C, owed: seq<Message>)
    requires Inv(h) && Enabled(h, e) && Step(h, e).Next? && c in Step(h, e).h.live
    requires if c in h.live then Complete(h, c, owed) else owed == []
    ensures c in Step(h, e).h.known && Complete(Step(h, e).h, c, owed + Owed(h, e, c))
  {
    var x := Step(h, e).h.known[c];
    assert c in h.live ==> x.taken + x.queue == h.known[c].taken + h.known[c].queue + Owed(h, e, c);
  }

  lemma {:induction false} RunKeepsInv<C>(states: seq<Hub<C>>, events: seq<Event<C>>, n: nat)
    requires IsRun(states, events) && n <= |events|
    ensures Inv(states[n])
    decreases n
  {
    if n > 0 {
      RunKeepsInv(states, events, n - 1);
      StepKeepsInv(states[n - 1], events[n - 1]);
    }
  }

  // ---- What the events alone say

  predicate Registered<C(==)>(events: seq<Event<C>>, n: nat, c: C)
    requires n <= |events|
  {
    exists i | 0 <= i < n :: events[i].Register? && events[i].c == c
  }

  /** The client is in the room: of the events that take it in or out, the last is a Join. */
  predicate Joined<C(==)>(events: seq<Event<C>>, n: nat, c: C, room: string)
    requires n <= |events|
  {
    n > 0 &&
    match events[n - 1]
    case Join(x, r) => (x == c && r == room) || Joined(events, n - 1, c, room)
    case Leave(x, r) => !(x == c && r == room) && Joined(events, n - 1, c, room)
    case Unregister(x, _) => x != c && Joined(events, n - 1, c, room)
    case _ => Joined(events, n - 1, c, room)
  }

  /** The messages for a client: its connect message and replies, every broadcast since
      it registered, and every emit to a room it is in. */
  function AllOwed<C(==)>(events: seq<Event<C>>, n: nat, c: C): seq<Message>
    requires n <= |events|
  {
    if n == 0 then []
    else
      AllOwed(events, n - 1, c) +
      match events[n - 1]
      case Register(x, connect) => if x == c then [connect] else []
      case Broadcast(m) => if Registered(events, n - 1, c) then [m] else []
      case Emit(room, m) => if Joined(events, n - 1, c, room) then [m] else []
      case Reply(x, m) => if x == c then [m] else []
      case _ => []
  }

  lemma {:induction false} RunStep<C>(states: seq<Hub<C>>, events: seq<Event<C>>, i: nat)
    requires IsRun(states, events) && i < |events|
    ensures |states| == |events| + 1
    ensures Inv(states[i]) && InHub(states[i]) && Enabled(states[i], events[i])
    ensures Step(states[i], events[i]) == Next(states[i + 1])
  {
    RunKeepsInv(states, events, i);
  }

  lemma {:induction false} KnownByHistory<C>(states: seq<Hub<C>>, events: seq<Event<C>>, n: nat, c: C)
    requires IsRun(states, events) && n <= |events|
    ensures c in states[n].known <==> Registered(events, n, c)
    decreases n
  {
    if n > 0 {
      KnownByHistory(states, events, n - 1, c);
      hide IsRun, Step, Enabled, InHub, Inv;
      RunStep(states, events, n - 1);
      OnlyRegisterMakesKnown(states[n - 1], events[n - 1], c);
    }
  }

  lemma {:induction false} OnlyRegisterMakesKnown<C>(h: Hub<C>, e: Event<C>, c: C)
    requires InHub(h) && Enabled(h, e) && Step(h, e).Next?
    ensures c in Step(h, e).h.known <==> c in h.known || (e.Register? && e.c == c)
  {
  }

  /** Nothing is owed to a client that has not registered, and it is in no room. */
  lemma {:induction false} NothingOwedBefore<C>(states: seq<Hub<C>>, events: seq<Event<C>>, n: nat, c: C)
    requires IsRun(states, events) && n <= |events| && c !in states[n].known
    ensures AllOwed(events, n, c) == [] && forall room :: !Joined(events, n, c, room)
    decreases n
  {
    hide IsRun, Step, Enabled, InHub, Inv;
    if n > 0 {
      RunStep(states, events, n - 1);
      NotBeforeRegister(states[n - 1], events[n - 1], c);
      NothingOwedBefore(states, events, n - 1, c);
      KnownByHistory(states, events, n - 1, c);
    }
  }

  lemma {:induction false} NotBeforeRegister<C>(h: Hub<C>, e: Event<C>, c: C)
    requires InHub(h) && Enabled(h, e) && Step(h, e).Next? && c !in Step(h, e).h.known
    ensures c !in h.known
    ensures e.Register? || e.Join? || e.Reply? || e.Drain? ==> e.c != c
  {
  }

  /** How a step changes the rooms of a client that is live after it. */
  lemma {:induction false} StepRooms<C>(h: Hub<C>, e: Event<C>, c: C, room: string)
    requires Inv(h) && Enabled(h, e) && Step(h, e).Next? && c in Step(h, e).h.live
    ensures c in Step(h, e).h.known
    ensures c !in h.live ==> e.Register? && e.c == c && c !in h.known && Step(h, e).h.known[c].rooms == {}
    ensures c in h.live ==>
      c in h.known &&
      (room in Step(h, e).h.known[c].rooms <==>
         e == Join(c, room) || (room in h.known[c].rooms && e != Leave(c, room)))
  {
  }

  /** The rooms and the clients' own lists are what was joined and not left. */
  lemma {:induction false} MembersByHistory<C>(states: seq<Hub<C>>, events: seq<Event<C>>, n: nat, c: C, room: string)
    requires IsRun(states, events) && n <= |events| && c in states[n].live
    ensures c in states[n].known
    ensures room in states[n].known[c].rooms <==> Joined(events, n, c, room)
    ensures room in states[n].rooms && c in states[n].rooms[room] <==> Joined(events, n, c, room)
    decreases n
  {
    RunKeepsInv(states, events, n);
    LiveRooms(states[n], c, room);
    hide IsRun, Step, Enabled, InHub, Inv;
    if n == 0 {
      StartsEmpty(states, events);
    } else {
      RunStep(states, events, n - 1);
      var h, e := states[n - 1], events[n - 1];
      StepRooms(h, e, c, room);
      if c in h.live {
        MembersByHistory(states, events, n - 1, c, room);
        StaysRegistered(h, e, c);
      } else {
        NothingOwedBefore(states, events, n - 1, c);
      }
    }
  }

  lemma {:induction false} StartsEmpty<C>(states: seq<Hub<C>>, events: seq<Event<C>>)
    requires IsRun(states, events)
    ensures states[0].live == {}
  {
  }

  lemma {:induction false} LiveRooms<C>(h: Hub<C>, c: C, room: string)
    requires Inv(h) && c in h.live
    ensures c in h.known
    ensures room in h.rooms && c in h.rooms[room] <==> room in h.known[c].rooms
  {
  }

  lemma {:induction false} StaysRegistered<C>(h: Hub<C>, e: Event<C>, c: C)
    requires Inv(h) && Enabled(h, e) && Step(h, e).Next? && c in Step(h, e).h.live
    ensures e.Unregister? ==> e.c != c
  {
  }

  /** No live client misses a message: in every reachable state, what the write pump
      has taken and what is queued is all it was owed, in order. */
  lemma {:induction false} NoLiveClientMisses<C>(states: seq<Hub<C>>, events: seq<Event<C>>, n: nat, c: C)
    requires IsRun(states, events) && n <= |events| && c in states[n].live
    ensures c in states[n].known && Complete(states[n], c, AllOwed(events, n, c))
    decreases n
  {
    if n > 0 {
      RunKeepsInv(states, events, n - 1);
      var h, e := states[n - 1], events[n - 1];
      if c in h.live {
        NoLiveClientMisses(states, events, n - 1, c);
        KnownByHistory(states, events, n - 1, c);
        if e.Emit? {
          MembersByHistory(states, events, n - 1, c, e.room);
        }
      } else {
        StepRooms(h, e, c, "");
        NothingOwedBefore(states, events, n - 1, c);
      }
      StepDelivers(h, e, c, AllOwed(events, n - 1, c));
    }
  }

  /** Does the next event take the client out of the hub? A broadcast or an emit does
      when 256 messages wait, the clean-up when one does. */
  predicate Evicts<C(==)>(h: Hub<C>, events: seq<Event<C>>, n: nat, c: C)
    requires n < |events| && c in h.known
  {
    match events[n]
    case Unregister(x, _) => x == c
    case Broadcast(_) => |h.known[c].queue| >= 256
    case Emit(room, _) => Joined(events, n, c, room) && |h.known[c].queue| >= 256
    case Cleanup => h.known[c].queue != []
    case _ => false
  }

  predicate StaysLive<C(==)>(states: seq<Hub<C>>, events: seq<Event<C>>, n: nat, c: C)
    requires n <= |events| == |states| - 1
  {
    n > 0 &&
    ((events[n - 1].Register? && events[n - 1].c == c) ||
     (StaysLive(states, events, n - 1, c) && c in states[n - 1].known && !Evicts(states[n - 1], events, n - 1, c)))
  }

  /** A client is live from its registration until an event takes it out. */
  lemma {:induction false} LiveByHistory<C>(states: seq<Hub<C>>, events: seq<Event<C>>, n: nat, c: C)
    requires IsRun(states, events) && n <= |events|
    ensures c in states[n].live <==> StaysLive(states, events, n, c)
    decreases n
  {
    hide IsRun, Step, Enabled, InHub, Inv, Evicts, Joined;
    if n == 0 {
      StartsEmpty(states, events);
    } else {
      LiveByHistory(states, events, n - 1, c);
      RunStep(states, events, n - 1);
      var h, e := states[n - 1], events[n - 1];
      if c in h.live {
        LiveRooms(h, c, "");
        if e.Emit? {
          MembersByHistory(states, events, n - 1, c, e.room);
        }
        LivesOn(h, events, n - 1, c);
        RegistersOnce(h, e, c);
      } else {
        OnlyRegisterRevives(h, e, c);
      }
    }
  }

  lemma {:induction false} RegistersOnce<C>(h: Hub<C>, e: Event<C>, c: C)
    requires Enabled(h, e) && c in h.known
    ensures e.Register? ==> e.c != c
  {
  }

  lemma {:induction false} OnlyRegisterRevives<C>(h: Hub<C>, e: Event<C>, c: C)
    requires Inv(h) && Enabled(h, e) && Step(h, e).Next? && c !in h.live
    ensures c in Step(h, e).h.live <==> e.Register? && e.c == c
  {
  }

  lemma {:induction false} LivesOn<C>(h: Hub<C>, events: seq<Event<C>>, n: nat, c: C)
    requires Inv(h) && n < |events| && Enabled(h, events[n]) && Step(h, events[n]).Next? && c in h.live
    requires events[n].Emit? ==>
      var room := events[n].room; room in h.rooms && c in h.rooms[room] <==> Joined(events, n, c, room)
    ensures c in Step(h, events[n]).h.live <==> !Evicts(h, events, n, c)
  {
    hide Joined;
  }

  /** The write pump has taken as many messages as it drained. */
  function Drains<C(==)>(events: seq<Event<C>>, n: nat, c: C): nat
    requires n <= |events|
  {
    if n == 0 then 0
    else Drains(events, n - 1, c) + if events[n - 1].Drain? && events[n - 1].c == c then 1 else 0
  }

  lemma {:induction false} TakenByHistory<C>(states: seq<Hub<C>>, events: seq<Event<C>>, n: nat, c: C)
    requires IsRun(states, events) && n <= |events| && c in states[n].known
    ensures |states[n].known[c].taken| == Drains(events, n, c)
    decreases n
  {
    hide Step, Enabled, InHub, Inv;
    if n > 0 {
      RunStep(states, events, n - 1);
      var h, e := states[n - 1], events[n - 1];
      OnlyRegisterMakesKnown(h, e, c);
      OnlyDrainTakes(h, e, c);
      if c in h.known {
        TakenByHistory(states, events, n - 1, c);
      } else {
        NoDrains(states, events, n - 1, c);
      }
    }
  }

  lemma {:induction false} OnlyDrainTakes<C>(h: Hub<C>, e: Event<C>, c: C)
    requires InHub(h) && Enabled(h, e) && Step(h, e).Next? && c in Step(h, e).h.known
    ensures |Step(h, e).h.known[c].taken| ==
            (if c in h.known then |h.known[c].taken| else 0) + if e.Drain? && e.c == c then 1 else 0
  {
  }

  lemma {:induction false} NoDrains<C>(states: seq<Hub<C>>, events: seq<Event<C>>, n: nat, c: C)
    requires IsRun(states, events) && n <= |events| && c !in states[n].known
    ensures Drains(events, n, c) == 0
    decreases n
  {
    hide IsRun, Step, Enabled, InHub, Inv;
    if n > 0 {
      RunStep(states, events, n - 1);
      NotBeforeRegister(states[n - 1], events[n - 1], c);
      NoDrains(states, events, n - 1, c);
    }
  }

  // ---- Emissions that wait

  /** The emissions asked for while the room had a member, and those made. */
  function Asked<C(==)>(states: seq<Hub<C>>, events: seq<Event<C>>, n: nat, room: string, m: Message): nat
    requires n <= |events| == |states| - 1
  {
    if n == 0 then 0
    else
      Asked(states, events, n - 1, room, m) +
      if events[n - 1] == RequestEmit(room, m) && room in states[n - 1].rooms && states[n - 1].rooms[room] != {}
      then 1 else 0
  }

  function Made<C(==)>(events: seq<Event<C>>, n: nat, room: string, m: Message): nat
    requires n <= |events|
  {
    if n == 0 then 0 else Made(events, n - 1, room, m) + if events[n - 1] == Emit(room, m) then 1 else 0
  }

  lemma {:induction false} PendingByHistory<C>(states: seq<Hub<C>>, events: seq<Event<C>>, n: nat, room: string,
                                               m: Message)
    requires IsRun(states, events) && n <= |events|
    ensures states[n].emits[(room, m)] + Made(events, n, room, m) == Asked(states, events, n, room, m)
    decreases n
  {
    hide Step, Enabled, InHub, Inv;
    if n > 0 {
      PendingByHistory(states, events, n - 1, room, m);
      RunStep(states, events, n - 1);
      StepPending(states[n - 1], events[n - 1], room, m);
    }
  }

  lemma {:induction false} StepPending<C>(h: Hub<C>, e: Event<C>, room: string, m: Message)
    requires InHub(h) && Enabled(h, e) && Step(h, e).Next?
    ensures Step(h, e).h.emits[(room, m)] + (if e == Emit(room, m) then 1 else 0) ==
            h.emits[(room, m)] + if e == RequestEmit(room, m) && room in h.rooms && h.rooms[room] != {} then 1 else 0
  {
  }

  /** With a live client in the room, an emission asked for waits to be made. */
  lemma {:induction false} RequestWaits<C>(states: seq<Hub<C>>, events: seq<Event<C>>, n: nat, c: C, room: string,
                                           m: Message)
    requires IsRun(states, events) && n < |events| && events[n] == RequestEmit(room, m)
    requires c in states[n].live && Joined(events, n, c, room)
    ensures states[n + 1].emits == states[n].emits + multiset{(room, m)}
  {
    MembersByHistory(states, events, n, c, room);
    assert Step(states[n], events[n]) == Next(states[n + 1]);
  }

  /** What an emission does to the members of its room. */
  lemma {:induction false} EmitReaches<C>(h: Hub<C>, room: string, m: Message, c: C)
    requires Inv(h) && (room, m) in h.emits && room in h.rooms && c in h.rooms[room]
    requires Step(h, Emit(room, m)).Next?
    ensures var x, after := h.known[c], Step(h, Emit(room, m)).h;
      && c in after.known
      && if |x.queue| < 256
         then after.known[c] == x.(queue := x.queue + [m]) && (c in after.live <==> c in h.live)
         else after.known[c] == x.(queue := x.queue[1..], rooms := x.rooms - {room}) && c !in after.live &&
              !(room in after.rooms && c in after.rooms[room])
  {
    var dead := set x | x in h.rooms[room] && Full(h.known[x]);
    OthersStay(h.rooms, room, dead, room, c);
  }

  /** An unregistered client is in no room, and no other client has left one. */
  lemma {:induction false} UnregisteredGone<C>(h: Hub<C>, c: C, relocks: bool, r: string, x: C)
    requires Inv(h) && c in h.live && Step(h, Unregister(c, relocks)).Next?
    ensures var after := Step(h, Unregister(c, relocks)).h.rooms;
      r in after && x in after[r] <==> r in h.rooms && x in h.rooms[r] && x != c
  {
    var lists: map<C, set<string>> := map[];
    lists := lists[c := h.known[c].rooms];
    if r in h.rooms && x in h.rooms[r] && x != c {
      StaysUnlisted(h.rooms, lists, r, x);
    }
  }

  /** The clean-up takes the live clients with messages out of all rooms, and no others. */
  lemma {:induction false} CleanedGone<C>(h: Hub<C>, r: string, x: C)
    requires Inv(h)
    ensures var after := Step(h, Cleanup).h.rooms;
      r in after && x in after[r] <==>
      r in h.rooms && x in h.rooms[r] && !(x in h.live && h.known[x].queue != [])
  {
    var dead := set c | c in h.live && (h.known[c].queue != [] || !h.known[c].open);
    var lists := map c | c in dead :: h.known[c].rooms;
    if r in h.rooms && x in h.rooms[r] && !(x in h.live && h.known[x].queue != []) {
      StaysUnlisted(h.rooms, lists, r, x);
    }
  }

  // ---- Closing

  /** A channel is closed exactly when its client is unregistered while live, or is live
      and has no space when a broadcast reaches it. */
  lemma {:induction false} ClosesExactly<C>(h: Hub<C>, e: Event<C>, c: C)
    requires Inv(h) && Enabled(h, e) && Step(h, e).Next? && c in h.known && h.known[c].open
    ensures c in Step(h, e).h.known
    ensures !Step(h, e).h.known[c].open <==>
            c in h.live && ((e.Unregister? && e.c == c) || (e.Broadcast? && |h.known[c].queue| >= 256))
  {
  }

  predicate Closes<C>(h: Hub<C>, h': Hub<C>, c: C) {
    c in h.known && h.known[c].open && c in h'.known && !h'.known[c].open
  }

  lemma {:induction false} StepKeepsClosed<C>(h: Hub<C>, e: Event<C>, c: C)
    requires InHub(h) && Enabled(h, e) && Step(h, e).Next? && c in h.known && !h.known[c].open
    ensures c in Step(h, e).h.known && !Step(h, e).h.known[c].open
  {
  }

  lemma {:induction false} ClosedStaysClosed<C>(states: seq<Hub<C>>, events: seq<Event<C>>, i: nat, j: nat, c: C)
    requires IsRun(states, events) && i <= j <= |events|
    requires c in states[i].known && !states[i].known[c].open
    ensures c in states[j].known && !states[j].known[c].open
    decreases j
  {
    hide Step, InHub, Enabled;
    if i < j {
      ClosedStaysClosed(states, events, i, j - 1, c);
      var h, e := states[j - 1], events[j - 1];
      assert InHub(h) && Enabled(h, e) && Step(h, e) == Next(states[j]);
      StepKeepsClosed(h, e, c);
    }
  }

  /** In a run no channel is closed by two steps. */
  lemma {:induction false} ClosedOnce<C>(states: seq<Hub<C>>, events: seq<Event<C>>, i: nat, j: nat, c: C)
    requires IsRun(states, events) && i < j < |events| && Closes(states[i], states[i + 1], c)
    ensures !Closes(states[j], states[j + 1], c)
  {
    assert c in states[i + 1].known && !states[i + 1].known[c].open;
    ClosedStaysClosed(states, events, i + 1, j, c);
  }

  // ---- Removing from rooms one at a time

  lemma {:induction false} NoListsYet<C>(rooms: map<string, set<C>>, lists: map<C, set<string>>)
    requires lists == map[]
    ensures WithoutListed(rooms, lists) == rooms
  {
    assert forall r | r in rooms :: !Listed(r, lists) && Unlisted(rooms[r], r, lists) == rooms[r];
  }

  lemma {:induction false} NoneListedMore<C>(rooms: map<string, set<C>>, lists: map<C, set<string>>, c: C)
    requires c !in lists
    ensures WithoutListed(rooms, lists[c := {}]) == WithoutListed(rooms, lists)
  {
    var a := lists[c := {}];
    forall r | r in rooms
      ensures Unlisted(rooms[r], r, a) == Unlisted(rooms[r], r, lists)
      ensures Listed(r, a) <==> Listed(r, lists)
    {
      if Listed(r, lists) {
        var x :| x in lists && r in lists[x];
        assert x in a && r in a[x];
      }
    }
  }

  lemma {:induction false} ListOneMore<C>(rooms: map<string, set<C>>, lists: map<C, set<string>>, c: C,
                                          done: set<string>, room: string)
    requires c !in lists
    ensures WithoutMembers(WithoutListed(rooms, lists[c := done]), room, {c}) ==
            WithoutListed(rooms, lists[c := done + {room}])
  {
    hide Unlisted, Listed;
    var a, b := lists[c := done], lists[c := done + {room}];
    forall r | r in rooms
      ensures Unlisted(rooms[r], r, b) == if r == room then Unlisted(rooms[r], r, a) - {c} else Unlisted(rooms[r], r, a)
      ensures Listed(r, b) <==> Listed(r, a) || r == room
    {
      UnlistedMore(rooms[r], a, b, c, r, room);
      ListedMore(a, b, c, r, room);
    }
  }

  lemma {:induction false} UnlistedMore<C>(members: set<C>, a: map<C, set<string>>, b: map<C, set<string>>, c: C,
                                           r: string, room: string)
    requires c in a && b == a[c := a[c] + {room}]
    ensures Unlisted(members, r, b) == if r == room then Unlisted(members, r, a) - {c} else Unlisted(members, r, a)
  {
  }

  lemma {:induction false} ListedMore<C>(a: map<C, set<string>>, b: map<C, set<string>>, c: C, r: string, room: string)
    requires c in a && b == a[c := a[c] + {room}]
    ensures Listed(r, b) <==> Listed(r, a) || r == room
  {
    if Listed(r, a) {
      var x :| x in a && r in a[x];
      assert x in b && r in b[x];
    }
    if r == room {
      assert c in b && r in b[c];
    }
  }

  lemma {:induction false} MembersLeft<C>(rooms: map<string, set<C>>, room: string, gone: set<C>)
    requires room in rooms
    ensures WithoutMembers(rooms, room, gone) ==
            if rooms[room] - gone == {} then rooms - {room} else rooms[room := rooms[room] - gone]
  {
  }

  lemma {:induction false} AbsentRoom<C>(rooms: map<string, set<C>>, room: string, gone: set<C>)
    requires room !in rooms
    ensures WithoutMembers(rooms, room, gone) == rooms
  {
  }

  /** The step of a broadcast, recognised from its result. */
  lemma {:induction false} IsBroadcastStep<C>(h: Hub<C>, m: Message, h': Hub<C>)
    requires InHub(h) && forall c | c in h.live :: h.known[c].open
    requires h'.rooms == h.rooms && h'.emits == h.emits && h'.known.Keys == h.known.Keys && h'.live <= h.live
    requires forall c | c in h.live :: c in h'.live <==> !Full(h.known[c])
    requires forall c | c in h.known :: h'.known[c] == (if c in h.live then Delivered(h.known[c], m) else h.known[c])
    ensures BroadcastStep(h, m) == Next(h')
  {
    assert h'.live == set c | c in h.live && !Full(h.known[c]);
    assert h'.known == map c | c in h.known ::
      (if c in h.live then Delivered(h.known[c], m) else h.known[c]);
  }

  /** The step of an emit, recognised from its result. */
  lemma {:induction false} NoRoomStep<C>(h: Hub<C>, room: string, m: Message)
    requires room !in h.rooms
    ensures EmitStep(h, room, m) == Next(h.(emits := h.emits - multiset{(room, m)}))
  {
  }

  lemma {:induction false} PanicStep<C>(h: Hub<C>, room: string, m: Message)
    requires room in h.rooms && h.rooms[room] <= h.known.Keys && exists c | c in h.rooms[room] :: !h.known[c].open
    ensures EmitStep(h, room, m) == SendOnClosed
  {
  }

  lemma {:induction false} IsEmitStep<C>(h: Hub<C>, room: string, m: Message, dead: set<C>, h': Hub<C>)
    requires InHub(h) && room in h.rooms && (forall c | c in h.rooms[room] :: h.known[c].open)
    requires dead == set c | c in h.rooms[room] && Full(h.known[c])
    requires h'.live == h.live - dead && h'.rooms == WithoutMembers(h.rooms, room, dead)
    requires h'.known.Keys == h.known.Keys && h'.emits == h.emits - multiset{(room, m)}
    requires forall c | c in h.known ::
      h'.known[c] == (if c in h.rooms[room] then Emitted(h.known[c], room, m) else h.known[c])
    ensures EmitStep(h, room, m) == Next(h')
  {
    assert h'.known == map c | c in h.known ::
      (if c in h.rooms[room] then Emitted(h.known[c], room, m) else h.known[c]);
  }

  /** The step of a clean-up, recognised from its result. */
  lemma {:induction false} IsCleanupStep<C>(h: Hub<C>, dead: set<C>, lists: map<C, set<string>>, h': Hub<C>)
    requires InHub(h) && dead == set c | c in h.live && (h.known[c].queue != [] || !h.known[c].open)
    requires lists.Keys == dead && forall c | c in dead :: lists[c] == h.known[c].rooms
    requires h'.live == h.live - dead && h'.rooms == WithoutListed(h.rooms, lists)
    requires h'.known.Keys == h.known.Keys && h'.emits == h.emits
    requires forall c | c in h.known :: h'.known[c] == (if c in dead then Stolen(h.known[c]) else h.known[c])
    ensures CleanupStep(h) == Next(h')
  {
    assert lists == map c | c in dead :: h.known[c].rooms;
    assert h'.known == map c | c in h.known :: (if c in dead then Stolen(h.known[c]) else h.known[c]);
  }
}
