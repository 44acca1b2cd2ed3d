/**
 The rooms of the relay server: who may join, who hears whom, and what leaving, kicking and
 deleting do to the members. The server's mutex makes each operation atomic; the queue behind
 each client is the subject of RelayQueue.
 */
module RelayRooms {

  type Byte = b: int | 0 <= b < 256

  const PACKET_BYTES := 112
  const AUTH_BYTES := 32
  const MAX_ROOM_CLIENTS := 4
  const TYPE_ANNOUNCE := 1
  const TYPE_DISCOVER := 2

  type Packet = raw: seq<Byte> | |raw| == PACKET_BYTES witness seq(PACKET_BYTES, _ => 0)

  type Auth = seq<Byte>

  /** One authenticated connection; `id` tells apart two connections of the same device. */
  datatype Client = Client(id: nat, dev: nat, room: string)

  datatype Room = Room(auth: Auth, clients: map<nat, Client>, hostAnn: map<nat, Packet>)

  type Rooms = map<string, Room>

  datatype Delivery = Delivery(to: Client, pkt: Packet)

  /** The rooms, the auth value each client ever joined with, and the clients that were closed. */
  datatype World = World(rooms: Rooms, presented: map<Client, Auth>, closed: set<Client>)

  datatype Op =
    | Join(cl: Client, auth: Auth) | Leave(cl: Client) | Kick(room: string, dev: nat) | Delete(room: string)
    | Route(cl: Client, raw: Packet)

  // ------------------------------------------------------------------ meaning

  function Target(raw: Packet): nat { (raw[12] as int) + 256 * (raw[13] as int) }

  predicate Broadcast(raw: Packet) {
    (Target(raw) == 0 || Target(raw) == 0xFFFF) && (raw[5] == TYPE_ANNOUNCE || raw[5] == TYPE_DISCOVER)
  }

  /** A packet is for one device if bytes 12 and 13 hold its id, low byte first. */
  predicate Addresses(raw: Packet, dev: nat) {
    dev < 0x1_0000 && raw[12] == dev % 256 && raw[13] == dev / 256
  }

  /** And for all if they hold 0 or 0xFFFF, and it is an announcement or a discovery (byte 5). */
  predicate ToAll(raw: Packet) {
    ((raw[12] == 0 && raw[13] == 0) || (raw[12] == 0xFF && raw[13] == 0xFF)) && (raw[5] == 1 || raw[5] == 2)
  }

  lemma TargetBytes(raw: Packet)
    ensures forall dev: nat :: Addresses(raw, dev) <==> Target(raw) == dev
    ensures Broadcast(raw) <==> ToAll(raw)
  {
  }

  predicate Admits(rooms: Rooms, maxRooms: nat, cl: Client, auth: Auth) {
    if cl.room in rooms then
      rooms[cl.room].auth == auth && |rooms[cl.room].clients| < MAX_ROOM_CLIENTS && cl.dev !in rooms[cl.room].clients
    else
      |rooms| < maxRooms && |auth| == AUTH_BYTES
  }

  /** A room without one device; it goes when nobody is left. */
  function Without(rooms: Rooms, room: string, dev: nat): Rooms {
    if room !in rooms then rooms
    else
      var r := rooms[room];
      if r.clients.Keys <= {dev} then rooms - {room}
      else rooms[room := r.(clients := r.clients - {dev}, hostAnn := r.hostAnn - {dev})]
  }

  function Apply(w: World, maxRooms: nat, op: Op): World {
    match op
    case Join(cl, auth) =>
      if !Admits(w.rooms, maxRooms, cl, auth) then w
      else
        var r := if cl.room in w.rooms then w.rooms[cl.room] else Room(auth, map[], map[]);
        w.(rooms := w.rooms[cl.room := r.(clients := r.clients[cl.dev := cl])], presented := w.presented[cl := auth])
    case Leave(cl) => w.(rooms := Without(w.rooms, cl.room, cl.dev), closed := w.closed + {cl})
    case Kick(room, dev) =>
      if room in w.rooms && dev in w.rooms[room].clients then
        w.(rooms := Without(w.rooms, room, dev), closed := w.closed + {w.rooms[room].clients[dev]})
      else w
    case Delete(room) =>
      if room in w.rooms then w.(rooms := w.rooms - {room}, closed := w.closed + w.rooms[room].clients.Values) else w
    case Route(cl, raw) =>
      if cl.room in w.rooms && Broadcast(raw) && raw[5] == TYPE_ANNOUNCE then
        var r := w.rooms[cl.room];
        w.(rooms := w.rooms[cl.room := r.(hostAnn := r.hostAnn[cl.dev := raw])])
      else w
  }

  function ApplyAll(w: World, maxRooms: nat, ops: seq<Op>): World
    decreases |ops|
  {
    if |ops| == 0 then w else ApplyAll(Apply(w, maxRooms, ops[0]), maxRooms, ops[1..])
  }

  predicate Member(rooms: Rooms, c: Client) {
    c.room in rooms && c.dev in rooms[c.room].clients && rooms[c.room].clients[c.dev] == c
  }

  /** One room: one to four members, each where its room and device say, with the room's auth. */
  ghost predicate RoomIsSound(name: string, r: Room, w: World) {
    && 1 <= |r.clients| <= MAX_ROOM_CLIENTS && |r.auth| == AUTH_BYTES
    && forall dev :: dev in r.clients ==>
      var c := r.clients[dev];
      c.dev == dev && c.room == name && c in w.presented && w.presented[c] == r.auth && c !in w.closed
  }

  ghost predicate Sound(w: World, maxRooms: nat) {
    && |w.rooms| <= maxRooms
    && forall name :: name in w.rooms ==> RoomIsSound(name, w.rooms[name], w)
  }

  /** A listing of a set: each element once. */
  ghost predicate Lists(s: seq<nat>, of: set<nat>) {
    (forall x :: x in s <==> x in of) && |s| == |of|
  }

  /** The deliveries for an ordered choice of devices. */
  ghost predicate Replies(r: Room, cl: Client, sent: seq<Delivery>, heard: seq<nat>) {
    |sent| == |heard| && forall i :: 0 <= i < |heard| ==> heard[i] in r.hostAnn && sent[i] == Delivery(cl, r.hostAnn[heard[i]])
  }

  ghost predicate CopiesFor(r: Room, raw: Packet, sent: seq<Delivery>, others: seq<nat>) {
    |sent| == |others| && forall i :: 0 <= i < |others| ==> others[i] in r.clients && sent[i] == Delivery(r.clients[others[i]], raw)
  }

  /** A discovery is answered with every other stored announcement, and a broadcast reaches every other member. */
  ghost predicate Spread(r: Room, cl: Client, raw: Packet, sent: seq<Delivery>, heard: seq<nat>, others: seq<nat>) {
    && Lists(heard, if raw[5] == TYPE_DISCOVER then r.hostAnn.Keys - {cl.dev} else {})
    && Lists(others, r.clients.Keys - {cl.dev})
    && |sent| == |heard| + |others|
    && Replies(r, cl, sent[..|heard|], heard) && CopiesFor(r, raw, sent[|heard|..], others)
  }

  /** What a packet sets off: announcements heard by its sender, copies for others, or one delivery. */
  ghost predicate Routed(rooms: Rooms, cl: Client, raw: Packet, sent: seq<Delivery>, heard: seq<nat>, others: seq<nat>) {
    if cl.room !in rooms then sent == []
    else
      var r := rooms[cl.room];
      if Broadcast(raw) then Spread(r, cl, raw, sent, heard, others)
      else if Target(raw) in r.clients then sent == [Delivery(r.clients[Target(raw)], raw)]
      else sent == []
  }

  // ------------------------------------------------------------------ the code

  class RelayServer {
    const maxRooms: nat
    var rooms: Rooms
    var closed: set<Client>
    var droppedUnknown: nat
    var routedPackets: nat
    ghost var presented: map<Client, Auth>

    ghost function Now(): World
      reads this
    {
      World(rooms, presented, closed)
    }

    ghost predicate Valid()
      reads this
    {
      Sound(Now(), maxRooms)
    }

    constructor (maxRooms: nat)
      ensures Valid() && this.maxRooms == maxRooms && Now() == World(map[], map[], {})
      ensures droppedUnknown == routedPackets == 0
    {
      this.maxRooms := maxRooms;
      rooms := map[];
      closed := {};
      presented := map[];
      droppedUnknown, routedPackets := 0, 0;
    }

    method AddClient(cl: Client, roomAuth: Auth) returns (added: bool)
      requires Valid() && cl !in presented && cl !in closed
      modifies this`rooms, this`presented
      ensures Valid() && Now() == Apply(old(Now()), maxRooms, Join(cl, roomAuth))
      ensures added <==> Admits(old(rooms), maxRooms, cl, roomAuth)
      ensures cl.room in old(rooms) ==>
        var r := old(rooms)[cl.room]; (added <==> r.auth == roomAuth && |r.clients| < 4 && cl.dev !in r.clients)
      ensures cl.room !in old(rooms) ==> (added <==> |old(rooms)| < maxRooms && |roomAuth| == 32)
      ensures added <==> Member(rooms, cl)
    {
      hide Sound, RoomIsSound;
      ghost var w := Now();
      JoinIsSound(w, maxRooms, cl, roomAuth);
      var r: Room;
      if cl.room !in rooms {
        if |rooms| >= maxRooms {
          return false;
        }
        if |roomAuth| != AUTH_BYTES {
          return false;
        }
        r := Room(roomAuth, map[], map[]);
      } else {
        r := rooms[cl.room];
        if r.auth != roomAuth {
          return false;
        }
      }
      if |r.clients| >= MAX_ROOM_CLIENTS {
        return false;
      }
      if cl.dev in r.clients {
        return false;
      }
      rooms := rooms[cl.room := r.(clients := r.clients[cl.dev := cl])];
      presented := presented[cl := roomAuth];
      added := true;
    }

    /** The deferred clean-up of a connection: it deletes whoever has the device id. */
    method RemoveClient(cl: Client)
      requires Valid()
      modifies this`rooms, this`closed
      ensures Valid() && Now() == Apply(old(Now()), maxRooms, Leave(cl))
    {
      hide Sound, RoomIsSound;
      LeaveIsSound(Now(), maxRooms, cl);
      closed := closed + {cl};
      if cl.room in rooms {
        DeleteMember(cl.room, cl.dev);
      }
    }

    /** Deletes a device from a room, and the room once it is empty. */
    method DeleteMember(room: string, dev: nat)
      requires room in rooms
      modifies this`rooms
      ensures rooms == Without(old(rooms), room, dev)
    {
      var r := rooms[room];
      r := r.(clients := r.clients - {dev}, hostAnn := r.hostAnn - {dev});
      NobodyLeft(rooms[room].clients, dev);
      if |r.clients| == 0 {
        rooms := rooms - {room};
      } else {
        rooms := rooms[room := r];
      }
    }

    method KickClient(room: string, dev: nat) returns (kicked: bool)
      requires Valid()
      modifies this`rooms, this`closed
      ensures Valid() && Now() == Apply(old(Now()), maxRooms, Kick(room, dev))
      ensures kicked <==> room in old(rooms) && dev in old(rooms)[room].clients
    {
      hide Sound, RoomIsSound, Without;
      KickIsSound(Now(), maxRooms, room, dev);
      if room !in rooms || dev !in rooms[room].clients {
        return false;
      }
      closed := closed + {rooms[room].clients[dev]};
      DeleteMember(room, dev);
      kicked := true;
    }

    method DeleteRoom(room: string) returns (deleted: bool)
      requires Valid()
      modifies this`rooms, this`closed
      ensures Valid() && Now() == Apply(old(Now()), maxRooms, Delete(room))
      ensures deleted <==> room in old(rooms)
    {
      hide Sound, RoomIsSound;
      DeleteIsSound(Now(), maxRooms, room);
      if room !in rooms {
        return false;
      }
      CloseAll(rooms[room].clients);
      rooms := rooms - {room};
      deleted := true;
    }

    method CloseAll(clients: map<nat, Client>)
      modifies this`closed
      ensures closed == old(closed) + clients.Values
    {
      var left := clients;
      while left != map[]
        invariant left.Values + closed == old(closed) + clients.Values
        decreases |left|
      {
        var dev :| dev in left;
        OneFewer(left, dev);
        closed := closed + {left[dev]};
        left := left - {dev};
      }
    }

    method RoutePacket(cl: Client, raw: Packet) returns (sent: seq<Delivery>, heard: seq<nat>, others: seq<nat>)
      requires Valid()
      modifies this`rooms, this`droppedUnknown, this`routedPackets
      ensures Valid() && Now() == Apply(old(Now()), maxRooms, Route(cl, raw))
      ensures Routed(rooms, cl, raw, sent, heard, others)
      ensures cl.room in rooms && !ToAll(raw) ==> forall dev :: dev in rooms[cl.room].clients && Addresses(raw, dev) ==>
        sent == [Delivery(rooms[cl.room].clients[dev], raw)]
      ensures cl.room in rooms && !ToAll(raw) && (forall dev :: dev in rooms[cl.room].clients ==> !Addresses(raw, dev)) ==> sent == []
      ensures cl.room in rooms && ToAll(raw) ==>
        Lists(others, rooms[cl.room].clients.Keys - {cl.dev}) && |heard| <= |sent|
        && CopiesFor(rooms[cl.room], raw, sent[|heard|..], others) && Replies(rooms[cl.room], cl, sent[..|heard|], heard)
        && Lists(heard, if raw[5] == 2 then rooms[cl.room].hostAnn.Keys - {cl.dev} else {})
        && cl.dev !in heard && cl.dev !in others
      ensures routedPackets == old(routedPackets) + if Broadcast(raw) then 0 else |sent|
      ensures droppedUnknown == old(droppedUnknown) + if cl.room in rooms && !Broadcast(raw) then 1 - |sent| else 0
    {
      hide Sound, RoomIsSound;
      RouteIsSound(Now(), maxRooms, cl, raw);
      TargetBytes(raw);
      sent, heard, others := [], [], [];
      if cl.room !in rooms {
        return;
      }
      var target := Target(raw);
      if (target == 0 || target == 0xFFFF) && (raw[5] == TYPE_ANNOUNCE || raw[5] == TYPE_DISCOVER) {
        if raw[5] == TYPE_ANNOUNCE {
          var r := rooms[cl.room];
          rooms := rooms[cl.room := r.(hostAnn := r.hostAnn[cl.dev := raw])];
        }
        sent, heard, others := Broadcasts(cl, rooms[cl.room], raw);
        return;
      }
      if target !in rooms[cl.room].clients {
        droppedUnknown := droppedUnknown + 1;
        return;
      }
      sent := [Delivery(rooms[cl.room].clients[target], raw)];
      routedPackets := routedPackets + 1;
    }

    /** Both parts of a broadcast. */
    method Broadcasts(cl: Client, r: Room, raw: Packet) returns (sent: seq<Delivery>, heard: seq<nat>, others: seq<nat>)
      ensures Spread(r, cl, raw, sent, heard, others)
    {
      var replies: seq<Delivery> := [];
      heard := [];
      if raw[5] == TYPE_DISCOVER {
        replies, heard := Announcements(cl, r);
      }
      var copies;
      copies, others := Copies(cl, r, raw);
      sent := replies + copies;
    }

    /** The stored announcements of the other devices, for the sender of a discovery. */
    method Announcements(cl: Client, r: Room) returns (sent: seq<Delivery>, heard: seq<nat>)
      ensures Lists(heard, r.hostAnn.Keys - {cl.dev}) && Replies(r, cl, sent, heard)
    {
      hide Lists;
      sent, heard := [], [];
      ListsNone(r.hostAnn.Keys - {cl.dev});
      var left := r.hostAnn.Keys - {cl.dev};
      while left != {}
        invariant left <= r.hostAnn.Keys - {cl.dev}
        invariant Lists(heard, r.hostAnn.Keys - {cl.dev} - left) && Replies(r, cl, sent, heard)
        decreases |left|
      {
        var dev :| dev in left;
        ListsOneMore(heard, r.hostAnn.Keys - {cl.dev}, left, dev);
        sent := sent + [Delivery(cl, r.hostAnn[dev])];
        heard := heard + [dev];
        left := left - {dev};
      }
      assert r.hostAnn.Keys - {cl.dev} - left == r.hostAnn.Keys - {cl.dev};
    }

    /** A copy of the packet for every other member. */
    method Copies(cl: Client, r: Room, raw: Packet) returns (sent: seq<Delivery>, others: seq<nat>)
      ensures Lists(others, r.clients.Keys - {cl.dev}) && CopiesFor(r, raw, sent, others)
    {
      hide Lists;
      sent, others := [], [];
      ListsNone(r.clients.Keys - {cl.dev});
      var left := r.clients.Keys - {cl.dev};
      while left != {}
        invariant left <= r.clients.Keys - {cl.dev}
        invariant Lists(others, r.clients.Keys - {cl.dev} - left) && CopiesFor(r, raw, sent, others)
        decreases |left|
      {
        var dev :| dev in left;
        ListsOneMore(others, r.clients.Keys - {cl.dev}, left, dev);
        sent := sent + [Delivery(r.clients[dev], raw)];
        others := others + [dev];
        left := left - {dev};
      }
      assert r.clients.Keys - {cl.dev} - left == r.clients.Keys - {cl.dev};
    }
  }

  // ------------------------------------------------------------------ proofs about one operation

  lemma ListsOneMore(s: seq<nat>, all: set<nat>, left: set<nat>, x: nat)
    requires left <= all && x in left && Lists(s, all - left)
    ensures Lists(s + [x], all - (left - {x}))
  {
    assert all - (left - {x}) == (all - left) + {x};
  }

  lemma ListsNone(all: set<nat>)
    ensures Lists([], all - all)
  {
    assert all - all == {};
  }

  lemma NobodyLeft(clients: map<nat, Client>, dev: nat)
    ensures |clients - {dev}| == 0 <==> clients.Keys <= {dev}
  {
    var rest := clients - {dev};
    assert rest.Keys == clients.Keys - {dev};
    assert |rest| == 0 <==> rest.Keys == {};
    assert rest.Keys == {} <==> clients.Keys <= {dev};
  }

  lemma OneFewer(left: map<nat, Client>, dev: nat)
    requires dev in left
    ensures (left - {dev}).Values + {left[dev]} == left.Values && |left - {dev}| < |left|
  {
    var rest := left - {dev};
    assert rest.Keys == left.Keys - {dev};
    forall v | v in left.Values ensures v in rest.Values + {left[dev]} {
      var d :| d in left && left[d] == v;
      if d != dev {
        assert d in rest && rest[d] == v;
      }
    }
    assert |rest.Keys| == |left.Keys| - 1;
  }

  /** Rooms that an operation does not touch stay as sound as they were. */
  lemma RoomElsewhere(name: string, r: Room, w: World, w': World, room: string)
    requires RoomIsSound(name, r, w) && name != room && GrowsAt(w, w', room)
    ensures RoomIsSound(name, r, w')
  {
  }

  /** Clients are only added to what was presented, and only those of one room are closed. */
  ghost predicate GrowsAt(w: World, w': World, room: string) {
    && (forall c :: c in w.presented ==> c in w'.presented && w'.presented[c] == w.presented[c])
    && (forall c :: c in w'.closed ==> c in w.closed || c.room == room)
  }

  lemma OneRoomChanged(w: World, w': World, maxRooms: nat, room: string)
    requires Sound(w, maxRooms) && GrowsAt(w, w', room) && |w'.rooms| <= maxRooms
    requires SameElsewhere(w.rooms, w'.rooms, room)
    requires room in w'.rooms ==> RoomIsSound(room, w'.rooms[room], w')
    ensures Sound(w', maxRooms)
  {
    hide RoomIsSound, GrowsAt;
    forall name | name in w'.rooms ensures RoomIsSound(name, w'.rooms[name], w') {
      if name != room {
        RoomElsewhere(name, w.rooms[name], w, w', room);
      }
    }
  }

  ghost predicate SameElsewhere(rooms: Rooms, rooms': Rooms, room: string) {
    forall name :: name in rooms' && name != room ==> name in rooms && rooms'[name] == rooms[name]
  }

  lemma PutRoom(rooms: Rooms, room: string, r: Room)
    ensures |rooms[room := r]| == if room in rooms then |rooms| else |rooms| + 1
    ensures SameElsewhere(rooms, rooms[room := r], room)
  {
    var rooms' := rooms[room := r];
    assert rooms'.Keys == rooms.Keys + {room};
    assert |rooms'.Keys| == if room in rooms.Keys then |rooms.Keys| else |rooms.Keys| + 1;
  }

  lemma DropRoom(rooms: Rooms, room: string)
    ensures |rooms - {room}| <= |rooms| && SameElsewhere(rooms, rooms - {room}, room)
  {
    var rooms' := rooms - {room};
    assert rooms'.Keys == rooms.Keys - {room};
    assert |rooms'.Keys| <= |rooms.Keys|;
  }

  lemma JoinIsSound(w: World, maxRooms: nat, cl: Client, auth: Auth)
    requires Sound(w, maxRooms) && cl !in w.presented && cl !in w.closed
    ensures Sound(Apply(w, maxRooms, Join(cl, auth)), maxRooms)
    ensures Admits(w.rooms, maxRooms, cl, auth) <==> Member(Apply(w, maxRooms, Join(cl, auth)).rooms, cl)
  {
    hide RoomIsSound, GrowsAt;
    var w' := Apply(w, maxRooms, Join(cl, auth));
    StrangersAreOutside(w, maxRooms, cl);
    if Admits(w.rooms, maxRooms, cl, auth) {
      var before := if cl.room in w.rooms then w.rooms[cl.room] else Room(auth, map[], map[]);
      var after := before.(clients := before.clients[cl.dev := cl]);
      NewMember(w, w', before, after, cl, auth);
      assert GrowsAt(w, w', cl.room) by { JoinGrows(w, w', cl, auth); }
      PutRoom(w.rooms, cl.room, after);
      OneRoomChanged(w, w', maxRooms, cl.room);
    }
  }

  lemma JoinGrows(w: World, w': World, cl: Client, auth: Auth)
    requires cl !in w.presented && w'.presented == w.presented[cl := auth] && w'.closed == w.closed
    ensures GrowsAt(w, w', cl.room)
  {
  }

  lemma StrangersAreOutside(w: World, maxRooms: nat, cl: Client)
    requires Sound(w, maxRooms) && cl !in w.presented
    ensures !Member(w.rooms, cl)
    ensures cl.room in w.rooms ==> RoomIsSound(cl.room, w.rooms[cl.room], w)
  {
    if cl.room in w.rooms {
      assert RoomIsSound(cl.room, w.rooms[cl.room], w);
    }
  }

  lemma NewMember(w: World, w': World, before: Room, after: Room, cl: Client, auth: Auth)
    requires RoomIsSound(cl.room, before, w) || (before == Room(auth, map[], map[]) && |auth| == AUTH_BYTES)
    requires before.auth == auth && |before.clients| < MAX_ROOM_CLIENTS && cl.dev !in before.clients
    requires after == before.(clients := before.clients[cl.dev := cl])
    requires cl !in w.presented && cl !in w.closed && w'.presented == w.presented[cl := auth] && w'.closed == w.closed
    ensures RoomIsSound(cl.room, after, w')
  {
    assert after.clients.Keys == before.clients.Keys + {cl.dev};
  }

  /** Taking one device out, and closing one client that had that place, leaves sound rooms. */
  lemma WithoutIsSound(w: World, maxRooms: nat, gone: Client)
    requires Sound(w, maxRooms)
    ensures Sound(w.(rooms := Without(w.rooms, gone.room, gone.dev), closed := w.closed + {gone}), maxRooms)
  {
    hide RoomIsSound;
    var room, w' := gone.room, w.(rooms := Without(w.rooms, gone.room, gone.dev), closed := w.closed + {gone});
    if room in w.rooms {
      var before := w.rooms[room];
      var after := before.(clients := before.clients - {gone.dev}, hostAnn := before.hostAnn - {gone.dev});
      PutRoom(w.rooms, room, after);
      DropRoom(w.rooms, room);
      assert RoomIsSound(room, before, w);
      FewerMembers(w, w', before, after, gone);
    }
    OneRoomChanged(w, w', maxRooms, room);
  }

  lemma FewerMembers(w: World, w': World, before: Room, after: Room, gone: Client)
    requires RoomIsSound(gone.room, before, w)
    requires after == before.(clients := before.clients - {gone.dev}, hostAnn := before.hostAnn - {gone.dev})
    requires w'.presented == w.presented && w'.closed == w.closed + {gone}
    ensures !(before.clients.Keys <= {gone.dev}) ==> RoomIsSound(gone.room, after, w')
  {
    assert after.clients.Keys == before.clients.Keys - {gone.dev};
    NobodyLeft(before.clients, gone.dev);
  }

  lemma LeaveIsSound(w: World, maxRooms: nat, cl: Client)
    requires Sound(w, maxRooms)
    ensures Sound(Apply(w, maxRooms, Leave(cl)), maxRooms)
  {
    hide Without, Sound;
    WithoutIsSound(w, maxRooms, cl);
  }

  lemma KickIsSound(w: World, maxRooms: nat, room: string, dev: nat)
    requires Sound(w, maxRooms)
    ensures Sound(Apply(w, maxRooms, Kick(room, dev)), maxRooms)
  {
    hide Without;
    if room in w.rooms && dev in w.rooms[room].clients {
      assert RoomIsSound(room, w.rooms[room], w);
      WithoutIsSound(w, maxRooms, w.rooms[room].clients[dev]);
    }
  }

  lemma MembersAreOfRoom(name: string, r: Room, w: World)
    requires RoomIsSound(name, r, w)
    ensures forall c :: c in r.clients.Values ==> c.room == name
  {
  }

  lemma DeleteIsSound(w: World, maxRooms: nat, room: string)
    requires Sound(w, maxRooms)
    ensures Sound(Apply(w, maxRooms, Delete(room)), maxRooms)
  {
    hide RoomIsSound;
    if room in w.rooms {
      var w' := Apply(w, maxRooms, Delete(room));
      DropRoom(w.rooms, room);
      MembersAreOfRoom(room, w.rooms[room], w);
      hide SameElsewhere;
      OneRoomChanged(w, w', maxRooms, room);
    }
  }

  lemma RouteIsSound(w: World, maxRooms: nat, cl: Client, raw: Packet)
    requires Sound(w, maxRooms)
    ensures Sound(Apply(w, maxRooms, Route(cl, raw)), maxRooms)
  {
    var w' := Apply(w, maxRooms, Route(cl, raw));
    if w' != w {
      PutRoom(w.rooms, cl.room, w'.rooms[cl.room]);
      assert RoomIsSound(cl.room, w.rooms[cl.room], w);
      OneRoomChanged(w, w', maxRooms, cl.room);
    }
  }

  // ------------------------------------------------------------------ whole runs

  /** Each connection joins once, before it is closed. */
  ghost predicate FreshJoin(w: World, op: Op) {
    op.Join? ==> op.cl !in w.presented && op.cl !in w.closed
  }

  ghost predicate AllFresh(w: World, maxRooms: nat, ops: seq<Op>)
    decreases |ops|
  {
    |ops| > 0 ==> FreshJoin(w, ops[0]) && AllFresh(Apply(w, maxRooms, ops[0]), maxRooms, ops[1..])
  }

  lemma ApplyIsSound(w: World, maxRooms: nat, op: Op)
    requires Sound(w, maxRooms) && FreshJoin(w, op)
    ensures Sound(Apply(w, maxRooms, op), maxRooms)
  {
    hide Sound, Apply;
    match op
    case Join(cl, auth) => JoinIsSound(w, maxRooms, cl, auth);
    case Leave(cl) => LeaveIsSound(w, maxRooms, cl);
    case Kick(room, dev) => KickIsSound(w, maxRooms, room, dev);
    case Delete(room) => DeleteIsSound(w, maxRooms, room);
    case Route(cl, raw) => RouteIsSound(w, maxRooms, cl, raw);
  }

  lemma {:induction false} RunsAreSound(w: World, maxRooms: nat, ops: seq<Op>)
    requires Sound(w, maxRooms) && AllFresh(w, maxRooms, ops)
    ensures Sound(ApplyAll(w, maxRooms, ops), maxRooms)
    decreases |ops|
  {
    hide Sound, Apply, FreshJoin;
    if |ops| > 0 {
      ApplyIsSound(w, maxRooms, ops[0]);
      RunsAreSound(Apply(w, maxRooms, ops[0]), maxRooms, ops[1..]);
    }
  }

  /** Whatever a packet sets off goes to its sender or to members of its sender's room, and no
      member gets two copies. */
  lemma RecipientsAreRoommates(w: World, maxRooms: nat, cl: Client, raw: Packet, sent: seq<Delivery>,
                               heard: seq<nat>, others: seq<nat>)
    requires Sound(w, maxRooms) && Routed(w.rooms, cl, raw, sent, heard, others)
    ensures forall i :: 0 <= i < |sent| ==> sent[i].to == cl || (Member(w.rooms, sent[i].to) && sent[i].to.room == cl.room)
    ensures forall i, j :: 0 <= i < j < |sent| && sent[i].to == sent[j].to ==> sent[i].to == cl
  {
    hide Spread, Broadcast;
    if cl.room in w.rooms {
      var r := w.rooms[cl.room];
      assert RoomIsSound(cl.room, r, w);
      if Broadcast(raw) {
        SpreadPlaces(r, cl, raw, sent, heard, others);
      }
    }
  }

  lemma SpreadPlaces(r: Room, cl: Client, raw: Packet, sent: seq<Delivery>, heard: seq<nat>, others: seq<nat>)
    requires Spread(r, cl, raw, sent, heard, others) && forall dev :: dev in r.clients ==> r.clients[dev].dev == dev
    ensures forall i :: 0 <= i < |sent| && sent[i].to != cl ==>
      sent[i].to.dev in r.clients && r.clients[sent[i].to.dev] == sent[i].to
    ensures forall i, j :: 0 <= i < j < |sent| && sent[i].to == sent[j].to ==> sent[i].to == cl
  {
    hide Lists;
    var k := |heard|;
    ListsOnce(others, r.clients.Keys - {cl.dev});
    forall i | 0 <= i < k ensures sent[i].to == cl {
      assert sent[i] == sent[..k][i];
    }
    forall i | k <= i < |sent| ensures others[i - k] in r.clients && sent[i].to == r.clients[others[i - k]] {
      assert sent[i] == sent[k..][i - k];
    }
    forall i, j | k <= i < j < |sent| ensures sent[i].to != sent[j].to {
      assert others[i - k] != others[j - k];
    }
  }

  lemma {:induction false} ListsOnce(s: seq<nat>, of: set<nat>)
    requires Lists(s, of)
    ensures forall i, j :: 0 <= i < j < |s| ==> s[i] != s[j]
  {
    if |s| > 0 {
      var last, rest := s[|s| - 1], s[..|s| - 1];
      if last in rest {
        forall x | x in of ensures x in rest {
        }
        FewElements(rest, of);
      } else {
        assert s == rest + [last];
        assert forall x :: x in rest <==> x in of - {last};
        ListsOnce(rest, of - {last});
      }
    }
  }

  lemma {:induction false} FewElements(s: seq<nat>, of: set<nat>)
    requires forall x :: x in of ==> x in s
    ensures |of| <= |s|
  {
    if |s| == 0 {
      assert of == {};
    } else {
      FewElements(s[1..], of - {s[0]});
    }
  }

  // ------------------------------------------------------------------ late clean-up

  /** Every client that joined and was not closed is still a member of its room. */
  ghost predicate OpenAreMembers(w: World) {
    forall c :: c in w.presented && c !in w.closed ==> Member(w.rooms, c)
  }

  /** Cleaning up a connection keeps that exactly when its device id is not in use by another. */
  lemma LeaveKeepsOpenIff(w: World, maxRooms: nat, cl: Client)
    requires Sound(w, maxRooms) && OpenAreMembers(w)
    ensures OpenAreMembers(Apply(w, maxRooms, Leave(cl))) <==>
      !(cl.room in w.rooms && cl.dev in w.rooms[cl.room].clients && w.rooms[cl.room].clients[cl.dev] != cl)
  {
    hide Without;
    var w' := Apply(w, maxRooms, Leave(cl));
    if cl.room in w.rooms && cl.dev in w.rooms[cl.room].clients && w.rooms[cl.room].clients[cl.dev] != cl {
      assert RoomIsSound(cl.room, w.rooms[cl.room], w);
      var c := w.rooms[cl.room].clients[cl.dev];
      WithoutMember(w.rooms, cl.room, cl.dev, c);
    } else {
      forall c | c in w'.presented && c !in w'.closed ensures Member(w'.rooms, c) {
        assert Member(w.rooms, c) && (c.room != cl.room || c.dev != cl.dev);
        WithoutMember(w.rooms, cl.room, cl.dev, c);
      }
    }
  }

  lemma WithoutMember(rooms: Rooms, room: string, dev: nat, c: Client)
    ensures Member(Without(rooms, room, dev), c) <==> Member(rooms, c) && (c.room != room || c.dev != dev)
  {
  }

  /** Every other operation keeps it. */
  lemma OthersKeepOpen(w: World, maxRooms: nat, op: Op)
    requires Sound(w, maxRooms) && OpenAreMembers(w) && FreshJoin(w, op) && !op.Leave?
    ensures OpenAreMembers(Apply(w, maxRooms, op))
  {
    hide RoomIsSound;
    var w' := Apply(w, maxRooms, op);
    forall c | c in w'.presented && c !in w'.closed ensures Member(w'.rooms, c) {
      match op
      case Join(cl, auth) => JoinKeepsMember(w, maxRooms, cl, auth, c);
      case Kick(room, dev) => KickKeepsMember(w, maxRooms, room, dev, c);
      case Delete(room) => DeleteKeepsMember(w, maxRooms, room, c);
      case Route(cl, raw) => assert Member(w.rooms, c);
    }
  }

  lemma JoinKeepsMember(w: World, maxRooms: nat, cl: Client, auth: Auth, c: Client)
    requires cl !in w.presented && c !in w.closed && OpenAreMembers(w)
    requires c in Apply(w, maxRooms, Join(cl, auth)).presented
    ensures Member(Apply(w, maxRooms, Join(cl, auth)).rooms, c)
  {
  }

  lemma KickKeepsMember(w: World, maxRooms: nat, room: string, dev: nat, c: Client)
    requires Member(w.rooms, c) && c !in Apply(w, maxRooms, Kick(room, dev)).closed
    ensures Member(Apply(w, maxRooms, Kick(room, dev)).rooms, c)
  {
  }

  lemma DeleteKeepsMember(w: World, maxRooms: nat, room: string, c: Client)
    requires Member(w.rooms, c) && c !in Apply(w, maxRooms, Delete(room)).closed
    ensures Member(Apply(w, maxRooms, Delete(room)).rooms, c)
  {
    assert c in w.rooms[c.room].clients.Values;
  }

  lemma FirstJoin(w: World, cl: Client, auth: Auth)
    requires w.rooms == map[] && cl !in w.presented && cl !in w.closed && |auth| == AUTH_BYTES && cl.dev == 1 && cl.room == "room"
    ensures FreshJoin(w, Join(cl, auth))
    ensures Apply(w, 1, Join(cl, auth)) ==
      World(map["room" := Room(auth, map[1 := cl], map[])], w.presented[cl := auth], w.closed)
  {
  }

  lemma KickOnly(w: World, cl: Client, auth: Auth)
    requires w.rooms == map["room" := Room(auth, map[1 := cl], map[])]
    ensures Apply(w, 1, Kick("room", 1)) == World(map[], w.presented, w.closed + {cl}) && FreshJoin(w, Kick("room", 1))
  {
    assert w.rooms - {"room"} == map[];
  }

  lemma LeaveInstead(w: World, gone: Client, cl: Client, auth: Auth)
    requires w.rooms == map["room" := Room(auth, map[1 := cl], map[])] && gone.room == "room" && gone.dev == 1
    ensures Apply(w, 1, Leave(gone)) == World(map[], w.presented, w.closed + {gone}) && FreshJoin(w, Leave(gone))
  {
    assert w.rooms - {"room"} == map[];
  }

  lemma FourOps(w: World, maxRooms: nat, ops: seq<Op>)
    requires |ops| == 4
    ensures ApplyAll(w, maxRooms, ops) ==
      Apply(Apply(Apply(Apply(w, maxRooms, ops[0]), maxRooms, ops[1]), maxRooms, ops[2]), maxRooms, ops[3])
    ensures AllFresh(w, maxRooms, ops) <==>
      var w1 := Apply(w, maxRooms, ops[0]);
      var w2 := Apply(w1, maxRooms, ops[1]);
      var w3 := Apply(w2, maxRooms, ops[2]);
      FreshJoin(w, ops[0]) && FreshJoin(w1, ops[1]) && FreshJoin(w2, ops[2]) && FreshJoin(w3, ops[3])
  {
    hide Apply, FreshJoin;
    var w1 := Apply(w, maxRooms, ops[0]);
    var w2 := Apply(w1, maxRooms, ops[1]);
    var w3 := Apply(w2, maxRooms, ops[2]);
    var w4 := Apply(w3, maxRooms, ops[3]);
    assert ops[1..][1..] == ops[2..] && ops[2..][1..] == ops[3..] && ops[3..][1..] == [];
    assert ApplyAll(w3, maxRooms, ops[3..]) == w4;
    assert ApplyAll(w2, maxRooms, ops[2..]) == w4;
    assert ApplyAll(w1, maxRooms, ops[1..]) == w4;
    assert AllFresh(w3, maxRooms, ops[3..]) <==> FreshJoin(w3, ops[3]);
    assert AllFresh(w2, maxRooms, ops[2..]) <==> FreshJoin(w2, ops[2]) && FreshJoin(w3, ops[3]);
  }

  /** A device is kicked and joins again before its first connection is cleaned up: the clean-up
      then removes the new connection, which stays open. */
  lemma LateCleanUpRemovesSuccessor(auth: Auth)
    requires |auth| == AUTH_BYTES
    ensures var first, second := Client(0, 1, "room"), Client(1, 1, "room");
      var ops := [Join(first, auth), Kick("room", 1), Join(second, auth), Leave(first)];
      var w0 := World(map[], map[], {});
      AllFresh(w0, 1, ops) && var w := ApplyAll(w0, 1, ops);
      second in w.presented && second !in w.closed && !Member(w.rooms, second)
  {
    hide Apply, FreshJoin;
    var first, second := Client(0, 1, "room"), Client(1, 1, "room");
    var ops := [Join(first, auth), Kick("room", 1), Join(second, auth), Leave(first)];
    var w0 := World(map[], map[], {});
    var w1 := World(map["room" := Room(auth, map[1 := first], map[])], w0.presented[first := auth], w0.closed);
    var w2 := World(map[], w1.presented, w1.closed + {first});
    var w3 := World(map["room" := Room(auth, map[1 := second], map[])], w2.presented[second := auth], w2.closed);
    var w4 := World(map[], w3.presented, w3.closed + {first});
    FirstJoin(w0, first, auth);
    KickOnly(w1, first, auth);
    FirstJoin(w2, second, auth);
    LeaveInstead(w3, first, second, auth);
    FourOps(w0, 1, ops);
  }

  // ------------------------------------------------------------------ announcements of the departed

  ghost predicate AnnouncersAreMembers(rooms: Rooms) {
    forall name :: name in rooms ==> rooms[name].hostAnn.Keys <= rooms[name].clients.Keys
  }

  /** A client whose device is not in the room (any more) announces itself. */
  predicate LateAnnouncement(w: World, op: Op) {
    op.Route? && op.cl.room in w.rooms && Broadcast(op.raw) && op.raw[5] == TYPE_ANNOUNCE && op.cl.dev !in w.rooms[op.cl.room].clients
  }

  /** Announcements belong to members, and every operation but a late announcement keeps that. */
  lemma AnnouncersAreMembersIff(w: World, maxRooms: nat, op: Op)
    requires AnnouncersAreMembers(w.rooms)
    ensures AnnouncersAreMembers(Apply(w, maxRooms, op).rooms) <==> !LateAnnouncement(w, op)
  {
    var w' := Apply(w, maxRooms, op);
    match op
    case Join(cl, auth) =>
    case Leave(cl) => DepartureKeepsAnnouncers(w.rooms, cl.room, cl.dev);
    case Kick(room, dev) => DepartureKeepsAnnouncers(w.rooms, room, dev);
    case Delete(room) =>
    case Route(cl, raw) =>
      if LateAnnouncement(w, op) {
        assert cl.dev in w'.rooms[cl.room].hostAnn.Keys;
      }
  }

  lemma DepartureKeepsAnnouncers(rooms: Rooms, room: string, dev: nat)
    requires AnnouncersAreMembers(rooms)
    ensures AnnouncersAreMembers(Without(rooms, room, dev))
  {
  }

  /** So it is over a whole run: at every moment, exactly if no announcement was late. */
  ghost predicate AlwaysMembers(w: World, maxRooms: nat, ops: seq<Op>)
    decreases |ops|
  {
    AnnouncersAreMembers(w.rooms) && (|ops| > 0 ==> AlwaysMembers(Apply(w, maxRooms, ops[0]), maxRooms, ops[1..]))
  }

  predicate NoneLate(w: World, maxRooms: nat, ops: seq<Op>)
    decreases |ops|
  {
    |ops| > 0 ==> !LateAnnouncement(w, ops[0]) && NoneLate(Apply(w, maxRooms, ops[0]), maxRooms, ops[1..])
  }

  lemma {:induction false} AlwaysMembersIff(w: World, maxRooms: nat, ops: seq<Op>)
    requires AnnouncersAreMembers(w.rooms)
    ensures AlwaysMembers(w, maxRooms, ops) <==> NoneLate(w, maxRooms, ops)
    decreases |ops|
  {
    hide Apply, AnnouncersAreMembers, LateAnnouncement;
    if |ops| > 0 {
      AnnouncersAreMembersIff(w, maxRooms, ops[0]);
      if !LateAnnouncement(w, ops[0]) {
        AlwaysMembersIff(Apply(w, maxRooms, ops[0]), maxRooms, ops[1..]);
      }
    }
  }
}
