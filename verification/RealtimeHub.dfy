/** The hub as an object over client objects. Each method is one region that runs
    under the hub's lock, and is proved to be the step of the model; where Go would
    panic, the method reports it. */
module RealtimeHub {
  import M = HubModel

  type Message = M.Message

  datatype Ending = Done | Waits | Panics

  class Client {
    var send: seq<Message>
    var open: bool
    var taken: seq<Message>
    var rooms: set<string>

    constructor ()
      ensures View() == M.Client([], true, [], {})
    {
      send, open, taken, rooms := [], true, [], {};
    }

    function View(): M.Client
      reads this
    {
      M.Client(send, open, taken, rooms)
    }

    /** A receive from the channel, or nothing when it is empty. */
    method Receive() returns (message: seq<Message>)
      modifies this`send
      ensures View() == M.Stolen(old(View()))
      ensures message == if old(send) == [] then [] else [old(send)[0]]
    {
      message := [];
      if |send| > 0 {
        message := [send[0]];
        send := send[1..];
      }
    }
  }

  class Hub {
    var clients: set<Client>
    var rooms: map<string, set<Client>>
    var emits: multiset<(string, Message)>
    ghost var known: set<Client>

    ghost function Known(): map<Client, M.Client>
      reads this, known
    {
      map c | c in known :: c.View()
    }

    ghost function View(): M.Hub<Client>
      reads this, known
    {
      M.Hub(clients, rooms, Known(), emits)
    }

    ghost predicate Valid()
      reads this
    {
      clients <= known && forall r | r in rooms :: rooms[r] <= known
    }

    constructor ()
      ensures Valid() && View() == M.Start() && known == {}
    {
      clients, rooms, emits := {}, map[], multiset{};
      known := {};
    }

    /** The register case of Run, with the connection message. */
    method Register(client: Client, connect: Message)
      requires Valid() && client !in known && client.View() == M.Client([], true, [], {})
      modifies this, client
      ensures Valid() && known == old(known) + {client}
      ensures M.RegisterStep(old(View()), client, connect) == M.Next(View())
      ensures clients == old(clients) + {client} && client.send == [connect]
    {
      clients := clients + {client};
      known := known + {client};
      client.send := client.send + [connect];
      assert client.send == [connect];
      assert Known() == old(Known())[client := M.Client([connect], true, [], {})];
    }

    /** Members of a room taken out of it; an empty room is deleted. */
    method TakeOut(room: string, gone: set<Client>)
      requires room in rooms
      modifies this`rooms
      ensures rooms == M.WithoutMembers(old(rooms), room, gone)
    {
      M.MembersLeft(rooms, room, gone);
      var members := rooms[room] - gone;
      if members == {} {
        rooms := rooms - {room};
      } else {
        rooms := rooms[room := members];
      }
    }

    /** removeFromRoom, for callers that hold the lock. */
    method RemoveMember(client: Client, room: string)
      modifies this`rooms, client`rooms
      ensures rooms == M.WithoutMembers(old(rooms), room, {client})
      ensures client.rooms == old(client.rooms) - {room}
    {
      if room in rooms {
        TakeOut(room, {client});
      }
      client.rooms := client.rooms - {room};
    }

    /** The loop of the unregister case over the client's rooms. */
    method LeaveAll(client: Client)
      modifies this`rooms, client`rooms
      ensures rooms == M.WithoutClient(old(rooms), client, old(client.rooms))
      ensures client.rooms == {}
    {
      var todo := client.rooms;
      ghost var none: map<Client, set<string>> := map[];
      M.NoListsYet(rooms, none);
      M.NoneListedMore(rooms, none, client);
      assert old(client.rooms) - todo == {} && rooms == old(rooms);
      while todo != {}
        invariant todo == client.rooms <= old(client.rooms)
        invariant rooms == M.WithoutClient(old(rooms), client, old(client.rooms) - todo)
        decreases |todo|
      {
        var room :| room in todo;
        M.ListOneMore(old(rooms), none, client, old(client.rooms) - todo, room);
        assert old(client.rooms) - todo + {room} == old(client.rooms) - (todo - {room});
        RemoveMember(client, room);
        todo := todo - {room};
      }
      assert old(client.rooms) - {} == old(client.rooms);
    }

    /** The unregister case of Run. Leaving a room takes the lock again, which nobody
        will release; without `relocks` it is the case with that repaired. */
    method Unregister(client: Client, relocks: bool) returns (ending: Ending)
      requires Valid() && client in known
      modifies this, client
      ensures known == old(known)
      ensures M.UnregisterStep(old(View()), client, relocks) ==
              match ending
              case Done => M.Next(View())
              case Waits => M.Blocked(View())
              case Panics => M.CloseOfClosed
    {
      ending := Done;
      if client in clients {
        if !client.open {
          return Panics;
        }
        clients := clients - {client};
        client.open := false;
        if relocks && client.rooms != {} {
          assert Known() == old(Known())[client := old(client.View()).(open := false)];
          return Waits;
        }
        LeaveAll(client);
        assert old(View()).known[client] == old(client.View());
        assert Known() == old(Known())[client := old(client.View()).(open := false, rooms := {})];
      } else {
        assert Known() == old(Known());
      }
    }

    /** The broadcast case of Run. */
    method Broadcast(message: Message) returns (panicked: bool)
      requires Valid()
      modifies this, known
      ensures known == old(known)
      ensures M.BroadcastStep(old(View()), message) == if panicked then M.SendOnClosed else M.Next(View())
      ensures !panicked ==> forall c | c in old(clients) ::
        if |old(c.send)| < 256 then c in clients && c.open && c.send == old(c.send) + [message]
        else c !in clients && !c.open && c.send == old(c.send)
    {
      panicked := false;
      var todo := clients;
      while todo != {}
        invariant todo <= old(clients) && known == old(known)
        invariant rooms == old(rooms) && emits == old(emits)
        invariant forall c | c in old(clients) && c !in todo :: old(c.open)
        invariant forall c :: c in clients <==> c in old(clients) && (c in todo || !M.Full(old(c.View())))
        invariant forall c | c in known && (c !in old(clients) || c in todo) :: c.View() == old(c.View())
        invariant forall c | c in old(clients) && c !in todo :: c.View() == M.Delivered(old(c.View()), message)
        decreases |todo|
      {
        var client :| client in todo;
        todo := todo - {client};
        if !client.open {
          assert !old(View()).known[client].open;
          return true;
        }
        if |client.send| < M.CAPACITY {
          client.send := client.send + [message];
        } else {
          client.open := false;
          clients := clients - {client};
        }
      }
      assert forall c | c in known :: old(View()).known[c] == old(c.View());
      M.IsBroadcastStep(old(View()), message, View());
    }

    /** addToRoom. */
    method AddToRoom(client: Client, room: string)
      requires Valid() && client in known
      modifies this`rooms, client`rooms
      ensures Valid()
      ensures M.JoinStep(old(View()), client, room) == M.Next(View())
      ensures client.rooms == old(client.rooms) + {room}
      ensures forall r, c :: r in rooms && c in rooms[r] <==>
        (r == room && c == client) || (r in old(rooms) && c in old(rooms)[r])
    {
      if room !in rooms {
        rooms := rooms[room := {}];
      }
      rooms := rooms[room := rooms[room] + {client}];
      client.rooms := client.rooms + {room};
      assert rooms == M.WithMember(old(rooms), room, client);
      assert Known() == old(Known())[client := old(client.View()).(rooms := client.rooms)];
    }

    /** removeFromRoom. */
    method RemoveFromRoom(client: Client, room: string)
      requires Valid() && client in known
      modifies this`rooms, client`rooms
      ensures M.LeaveStep(old(View()), client, room) == M.Next(View())
      ensures client.rooms == old(client.rooms) - {room}
      ensures forall r, c :: r in rooms && c in rooms[r] <==>
        !(r == room && c == client) && r in old(rooms) && c in old(rooms)[r]
    {
      forall r, c {
        M.OthersStay(rooms, room, {client}, r, c);
      }
      RemoveMember(client, room);
      assert Known() == old(Known())[client := old(client.View()).(rooms := client.rooms)];
    }

    /** EmitToRoom up to starting its goroutine. */
    method EmitToRoom(room: string, message: Message)
      requires Valid()
      modifies this`emits
      ensures Valid()
      ensures M.RequestEmitStep(old(View()), room, message) == M.Next(View())
      ensures emits ==
              if room in rooms && rooms[room] != {} then old(emits) + multiset{(room, message)} else old(emits)
    {
      if room in rooms && |rooms[room]| != 0 {
        emits := emits + multiset{(room, message)};
      }
      assert Known() == old(Known());
    }

    /** The sends of the goroutine: members whose channel is full are collected. */
    method SendToMembers(members: set<Client>, message: Message) returns (dead: set<Client>, panicked: bool)
      modifies members`send
      ensures panicked <==> exists c | c in members :: !c.open
      ensures !panicked ==> dead == set c | c in members && M.Full(old(c.View()))
      ensures !panicked ==>
        forall c | c in members :: c.View() == (if c in dead then old(c.View()) else M.Queued(old(c.View()), message))
    {
      dead, panicked := {}, false;
      var todo := members;
      while todo != {}
        invariant todo <= members
        invariant forall c | c in members && c !in todo :: c.open
        invariant dead == set c | c in members - todo && M.Full(old(c.View()))
        invariant forall c | c in todo || c in dead :: c.View() == old(c.View())
        invariant forall c | c in members && c !in todo && c !in dead :: c.View() == M.Queued(old(c.View()), message)
        decreases |todo|
      {
        var client :| client in todo;
        todo := todo - {client};
        if !client.open {
          return dead, true;
        }
        if |client.send| < M.CAPACITY {
          client.send := client.send + [message];
        } else {
          dead := dead + {client};
        }
      }
    }

    /** The goroutine's clean-up: a full channel gives up its oldest message and stays open. */
    method DropDead(dead: set<Client>, room: string)
      requires room in rooms
      modifies this`clients, this`rooms, dead
      ensures clients == old(clients) - dead
      ensures rooms == M.WithoutMembers(old(rooms), room, dead)
      ensures forall c | c in dead :: c.View() == M.Stolen(old(c.View())).(rooms := old(c.rooms) - {room})
    {
      hide M.WithoutMembers;
      var todo := dead;
      while todo != {}
        invariant todo <= dead && rooms == old(rooms)
        invariant forall c :: c in clients <==> c in old(clients) && (c in dead ==> c in todo)
        invariant forall c | c in todo :: c.View() == old(c.View())
        invariant forall c | c in dead && c !in todo ::
          c.View() == M.Stolen(old(c.View())).(rooms := old(c.rooms) - {room})
        decreases |todo|
      {
        var client :| client in todo;
        todo := todo - {client};
        var stolen := client.Receive();
        clients := clients - {client};
        client.rooms := client.rooms - {room};
      }
      TakeOut(room, dead);
    }

    /** The goroutine EmitToRoom starts, once it holds the lock. */
    method Emit(room: string, message: Message) returns (panicked: bool)
      requires Valid() && (room, message) in emits
      modifies this, known
      ensures known == old(known)
      ensures M.EmitStep(old(View()), room, message) == if panicked then M.SendOnClosed else M.Next(View())
    {
      hide M.WithoutMembers, M.EmitStep;
      ghost var h := old(View());
      emits := emits - multiset{(room, message)};
      if room !in rooms {
        assert Known() == old(Known());
        M.NoRoomStep(h, room, message);
        return false;
      }
      var dead;
      dead, panicked := SendToMembers(rooms[room], message);
      assert forall c | c in known :: h.known[c] == old(c.View()) && c.open == old(c.open);
      if panicked {
        M.PanicStep(h, room, message);
        return;
      }
      DropDead(dead, room);
      M.IsEmitStep(h, room, message, dead, View());
    }

    /** cleanupDeadClients: the first loop receives from every channel that has something. */
    method FindDead() returns (dead: set<Client>)
      requires Valid()
      modifies clients`send
      ensures dead == set c | c in clients && (old(c.send) != [] || !c.open)
      ensures forall c | c in clients :: c.View() == if c in dead then M.Stolen(old(c.View())) else old(c.View())
    {
      dead := {};
      var todo := clients;
      while todo != {}
        invariant todo <= clients
        invariant forall c :: c in dead <==> c in clients && c !in todo && (old(c.send) != [] || !c.open)
        invariant forall c | c in clients && c in todo :: c.send == old(c.send)
        invariant forall c | c in clients && c !in todo :: c.send == M.Stolen(old(c.View())).queue
        decreases |todo|
      {
        var client :| client in todo;
        todo := todo - {client};
        var message := client.Receive();
        if message != [] || !client.open {
          dead := dead + {client};
        }
      }
    }

    /** cleanupDeadClients. */
    method CleanupDeadClients()
      requires Valid()
      modifies this, known
      ensures known == old(known)
      ensures M.CleanupStep(old(View())) == M.Next(View())
      ensures clients == set c | c in old(clients) && old(c.send) == [] && old(c.open)
    {
      var dead := FindDead();
      ghost var h := old(View());
      assert forall c | c in known :: h.known[c] == old(c.View());
      clients := clients - dead;
      LeaveListed(dead);
      M.IsCleanupStep(h, dead, Lists(dead), View());
    }

    ghost function Lists(cs: set<Client>): map<Client, set<string>>
      reads cs
    {
      map c: Client | c in cs :: c.rooms
    }

    /** Out of the rooms in the client's list; the list itself stays. */
    method LeaveOwn(client: Client, ghost all: map<string, set<Client>>, ghost lists: map<Client, set<string>>)
      requires client !in lists && rooms == M.WithoutListed(all, lists)
      modifies this`rooms
      ensures rooms == M.WithoutListed(all, lists[client := client.rooms])
    {
      var left := client.rooms;
      M.NoneListedMore(all, lists, client);
      assert client.rooms - left == {};
      while left != {}
        invariant left <= client.rooms
        invariant rooms == M.WithoutListed(all, lists[client := client.rooms - left])
        decreases |left|
      {
        var room :| room in left;
        M.ListOneMore(all, lists, client, client.rooms - left, room);
        assert client.rooms - left + {room} == client.rooms - (left - {room});
        if room in rooms {
          TakeOut(room, {client});
        } else {
          M.AbsentRoom(rooms, room, {client});
        }
        left := left - {room};
      }
      assert client.rooms - {} == client.rooms;
    }

    /** The second loop: out of the hub's rooms. */
    method LeaveListed(dead: set<Client>)
      modifies this`rooms
      ensures rooms == M.WithoutListed(old(rooms), Lists(dead))
    {
      var todo := dead;
      assert Lists(dead - todo) == map[];
      M.NoListsYet(rooms, Lists(dead - todo));
      while todo != {}
        invariant todo <= dead
        invariant rooms == M.WithoutListed(old(rooms), Lists(dead - todo))
        decreases |todo|
      {
        var client :| client in todo;
        assert Lists(dead - (todo - {client})) == Lists(dead - todo)[client := client.rooms];
        LeaveOwn(client, old(rooms), Lists(dead - todo));
        todo := todo - {client};
      }
      assert dead - {} == dead;
    }

    /** The write pump takes the oldest message. */
    method Drain(client: Client)
      requires Valid() && client in known && client.send != []
      modifies client
      ensures Valid()
      ensures M.DrainStep(old(View()), client) == M.Next(View())
      ensures client.taken == old(client.taken) + [old(client.send)[0]] && client.send == old(client.send)[1..]
    {
      var message := client.Receive();
      client.taken := client.taken + message;
      assert Known() == old(Known())[client := client.View()];
    }

    /** A reply of the read pump to its own client, when there is space. */
    method Reply(client: Client, message: Message) returns (panicked: bool)
      requires Valid() && client in known
      modifies client
      ensures Valid()
      ensures M.ReplyStep(old(View()), client, message) == if panicked then M.SendOnClosed else M.Next(View())
      ensures panicked <==> !old(client.open)
      ensures !panicked ==> client.send == old(client.send) + [message]
    {
      panicked := !client.open;
      if !panicked {
        client.send := client.send + [message];
      }
      assert Known() == old(Known())[client := client.View()];
    }
  }
}
