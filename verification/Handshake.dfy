/** Call set-up and reception over a network that loses, duplicates and reorders
    datagrams but delivers each with the address it was really sent from. */
module Handshake {
  import opened Basics
  import opened Protocol

  /** An address in the normal form that sameAddress compares: IP value, zone and port. */
  datatype Address = Address(ip: nat, zone: string, port: nat)

  datatype Datagram = Datagram(from: Address, to: Address, data: seq<Byte>)

  /** An endpoint from socket creation to hang-up. */
  datatype Endpoint =
    | Listening
    | Calling(session: nat)
    | InCall(peer: Address, session: nat)
    | HungUp(peer: Address, session: nat)

  /** One server, any number of clients at honest addresses, and everybody else. `sent` holds every datagram
      ever sent: a copy can be delivered at any later time, any number of times, or never. `completed` records
      each client address and session whose handshake returned, and the queues record what reached playout. */
  datatype System = System(
    server: Address,
    honest: set<Address>,
    serverEnd: Endpoint,
    clients: map<Address, Endpoint>,
    sent: set<Datagram>,
    completed: set<(Address, nat)>,
    serverQueue: seq<Packet>,
    clientQueues: map<Address, seq<Packet>>)

  datatype Action =
    | Dial(client: Address, session: nat)
    | SayHello(client: Address)
    | DeliverToServer(datagram: Datagram)
    | DeliverToClient(datagram: Datagram)
    | ServerAudio(seqNo: nat, audio: seq<Byte>)
    | ClientAudio(client: Address, seqNo: nat, audio: seq<Byte>)
    | ServerBye
    | ClientBye(client: Address)
    | Outsider(datagram: Datagram)

  /** peer.send: every message leaves with the sender's own session. */
  function Send(from: Address, to: Address, kind: Byte, session: nat, seqNo: nat, audio: seq<Byte>): Datagram {
    Datagram(from, to, Encode(Packet(kind, session, seqNo, audio)))
  }

  function Control(from: Address, to: Address, kind: Byte, session: nat): Datagram {
    Send(from, to, kind, session, 0, Silence())
  }

  predicate AudioTyped(seqNo: nat, audio: seq<Byte>) {
    seqNo < Pow256(4) && |audio| == FRAME_BYTES
  }

  /** What an endpoint in a call accepts: only its peer, only its session. */
  function InCallMessage(peer: Address, session: nat, d: Datagram): Option<Packet> {
    match Parse(d.data)
    case None => None
    case Some(p) => if d.from == peer && p.session == session then Some(p) else None
  }

  function ServerReceives(s: System, d: Datagram): System {
    match s.serverEnd
    case Listening => (
      match Parse(d.data)
      case Some(p) =>
        if p.kind == KIND_HELLO then
          s.(serverEnd := InCall(d.from, p.session),
             sent := s.sent + {Control(s.server, d.from, KIND_ACCEPT, p.session)})
        else s
      case None => s)
    case InCall(peer, session) => (
      match InCallMessage(peer, session, d)
      case Some(p) =>
        if p.kind == KIND_HELLO then s.(sent := s.sent + {Control(s.server, peer, KIND_ACCEPT, session)})
        else if p.kind == KIND_BYE then s.(serverEnd := HungUp(peer, session))
        else if p.kind == KIND_AUDIO then s.(serverQueue := s.serverQueue + [p])
        else s
      case None => s)
    case _ => s
  }

  function ClientReceives(s: System, c: Address, d: Datagram): System
    requires c in s.clients && c in s.clientQueues
  {
    match s.clients[c]
    case Calling(session) => (
      match InCallMessage(s.server, session, d)
      case Some(p) =>
        if p.kind == KIND_ACCEPT then
          s.(clients := s.clients[c := InCall(s.server, session)], completed := s.completed + {(c, session)})
        else s
      case None => s)
    case InCall(peer, session) => (
      match InCallMessage(peer, session, d)
      case Some(p) =>
        if p.kind == KIND_HELLO then s.(sent := s.sent + {Control(c, peer, KIND_ACCEPT, session)})
        else if p.kind == KIND_BYE then s.(clients := s.clients[c := HungUp(peer, session)])
        else if p.kind == KIND_AUDIO then s.(clientQueues := s.clientQueues[c := s.clientQueues[c] + [p]])
        else s
      case None => s)
    case _ => s
  }

  /** One step; an action that is not enabled changes nothing. */
  function Step(s: System, a: Action): System {
    match a
    case Dial(c, session) =>
      if c in s.honest && c != s.server && session % 2 == 1 && session < Pow256(8) then
        s.(clients := s.clients[c := Calling(session)], clientQueues := s.clientQueues[c := []])
      else s
    case SayHello(c) =>
      if c in s.clients && s.clients[c].Calling? then
        s.(sent := s.sent + {Control(c, s.server, KIND_HELLO, s.clients[c].session)})
      else s
    case DeliverToServer(d) =>
      if d in s.sent && d.to == s.server then ServerReceives(s, d) else s
    case DeliverToClient(d) =>
      if d in s.sent && d.to in s.clients && d.to in s.clientQueues then ClientReceives(s, d.to, d) else s
    case ServerAudio(seqNo, audio) =>
      if s.serverEnd.InCall? && AudioTyped(seqNo, audio) then
        s.(sent := s.sent + {Send(s.server, s.serverEnd.peer, KIND_AUDIO, s.serverEnd.session, seqNo, audio)})
      else s
    case ClientAudio(c, seqNo, audio) =>
      if c in s.clients && s.clients[c].InCall? && AudioTyped(seqNo, audio) then
        s.(sent := s.sent + {Send(c, s.clients[c].peer, KIND_AUDIO, s.clients[c].session, seqNo, audio)})
      else s
    case ServerBye =>
      if s.serverEnd.InCall? then
        s.(sent := s.sent + {Control(s.server, s.serverEnd.peer, KIND_BYE, s.serverEnd.session)})
      else s
    case ClientBye(c) =>
      if c in s.clients && s.clients[c].InCall? then
        s.(sent := s.sent + {Control(c, s.clients[c].peer, KIND_BYE, s.clients[c].session)})
      else s
    case Outsider(d) =>
      if d.from !in s.honest && d.from != s.server then s.(sent := s.sent + {d}) else s
  }

  function Run(s: System, actions: seq<Action>): System
    decreases |actions|
  {
    if actions == [] then s else Run(Step(s, actions[0]), actions[1..])
  }

  function Initial(server: Address, honest: set<Address>): System {
    System(server, honest, Listening, map[], {}, {}, [], map[])
  }

  // ---- What every reachable state satisfies ----

  /** The address and session the server bound, if any. */
  function Binding(s: System): Option<(Address, nat)> {
    match s.serverEnd
    case InCall(peer, session) => Some((peer, session))
    case HungUp(peer, session) => Some((peer, session))
    case _ => None
  }

  predicate ValidSession(session: nat) {
    0 < session < Pow256(8)
  }

  predicate Carries(d: Datagram, from: Address, to: Address, p: Packet) {
    d.from == from && d.to == to && Parse(d.data) == Some(p)
  }

  /** Some datagram from one address to the other carried the packet. */
  predicate Carried(sent: set<Datagram>, from: Address, to: Address, p: Packet) {
    exists d <- sent :: Carries(d, from, to, p)
  }

  /** What the server and each honest client may have sent. */
  predicate HonestDatagram(s: System, d: Datagram) {
    var m := Parse(d.data);
    && (d.from == s.server ==> m.Some? && Binding(s) == Some((d.to, m.value.session)))
    && (d.from in s.honest && d.from != s.server ==>
          && m.Some? && d.to == s.server
          && (m.value.kind == KIND_AUDIO ==> (d.from, m.value.session) in s.completed))
  }

  predicate SessionsValid(s: System) {
    && (Binding(s).Some? ==> ValidSession(Binding(s).value.1))
    && !s.serverEnd.Calling?
    && forall c <- s.clients :: !s.clients[c].Listening? && ValidSession(s.clients[c].session)
  }

  predicate ClientsAgree(s: System) {
    && s.clients.Keys <= s.honest - {s.server}
    && s.clients.Keys == s.clientQueues.Keys
    && forall c <- s.clients :: s.clients[c].InCall? || s.clients[c].HungUp? ==>
         s.clients[c].peer == s.server && (c, s.clients[c].session) in s.completed
  }

  /** Agreement: whoever completed is exactly who the server bound, with the same session. */
  ghost predicate Agreement(s: System) {
    forall x <- s.completed :: Binding(s) == Some(x)
  }

  /** A queued packet is audio of the bound session and was sent by the bound peer to the server. */
  predicate FromBoundPeer(binding: Option<(Address, nat)>, sent: set<Datagram>, server: Address, p: Packet) {
    && p.kind == KIND_AUDIO
    && binding.Some? && p.session == binding.value.1
    && Carried(sent, binding.value.0, server, p)
  }

  /** A queued packet is audio that the server sent to a client while bound to it in that session. */
  predicate FromServer(binding: Option<(Address, nat)>, sent: set<Datagram>, server: Address, c: Address, p: Packet) {
    && p.kind == KIND_AUDIO
    && binding == Some((c, p.session))
    && Carried(sent, server, c, p)
  }

  predicate QueuesAreGenuine(s: System) {
    && (forall p <- s.serverQueue :: FromBoundPeer(Binding(s), s.sent, s.server, p))
    && (forall c <- s.clientQueues :: forall p <- s.clientQueues[c] :: FromServer(Binding(s), s.sent, s.server, c, p))
  }

  ghost predicate Invariant(s: System) {
    && SessionsValid(s)
    && ClientsAgree(s)
    && Agreement(s)
    && (forall d <- s.sent :: HonestDatagram(s, d))
    && QueuesAreGenuine(s)
  }

  lemma SentParses(from: Address, to: Address, kind: Byte, session: nat, seqNo: nat, audio: seq<Byte>)
    requires KIND_HELLO <= kind <= KIND_BYE && ValidSession(session) && AudioTyped(seqNo, audio)
    requires kind != KIND_AUDIO ==> audio == Silence()
    ensures Parse(Send(from, to, kind, session, seqNo, audio).data) == Some(Packet(kind, session, seqNo, audio))
  {
    ParseOfEncode(Packet(kind, session, seqNo, audio));
  }

  lemma ControlParses(from: Address, to: Address, kind: Byte, session: nat)
    requires KIND_HELLO <= kind <= KIND_BYE && kind != KIND_AUDIO && ValidSession(session)
    ensures Parse(Control(from, to, kind, session).data) == Some(Packet(kind, session, 0, Silence()))
  {
    SentParses(from, to, kind, session, 0, Silence());
  }

  /** Adding a datagram that its sender may send keeps the invariant. */
  lemma SendingKeepsInvariant(s: System, d: Datagram)
    requires Invariant(s)
    requires HonestDatagram(s, d)
    ensures Invariant(s.(sent := s.sent + {d}))
  {
    var s' := s.(sent := s.sent + {d});
    assert Binding(s') == Binding(s);
    assert forall a, b, p :: Carried(s.sent, a, b, p) ==> Carried(s'.sent, a, b, p);
    assert forall e :: HonestDatagram(s, e) ==> HonestDatagram(s', e);
  }

  lemma BindingKeepsInvariant(s: System, d: Datagram, p: Packet)
    requires Invariant(s) && s.serverEnd.Listening?
    requires d in s.sent && Parse(d.data) == Some(p)
    ensures Invariant(s.(serverEnd := InCall(d.from, p.session)))
  {
    EncodeOfParse(d.data);
    var s' := s.(serverEnd := InCall(d.from, p.session));
    assert forall e <- s.sent :: HonestDatagram(s, e);
    assert forall e <- s.sent :: e.from != s.server;
    assert s.completed == {};
  }

  lemma ServerReceivesKeepsInvariant(s: System, d: Datagram)
    requires Invariant(s)
    requires d in s.sent && d.to == s.server
    ensures Invariant(ServerReceives(s, d))
  {
    match s.serverEnd
    case Listening =>
      match Parse(d.data) {
        case Some(p) =>
          if p.kind == KIND_HELLO {
            EncodeOfParse(d.data);
            BindingKeepsInvariant(s, d, p);
            ControlParses(s.server, d.from, KIND_ACCEPT, p.session);
            var s1 := s.(serverEnd := InCall(d.from, p.session));
            var accept := Control(s.server, d.from, KIND_ACCEPT, p.session);
            SendingKeepsInvariant(s1, accept);
          }
        case None =>
      }
    case InCall(peer, session) =>
      match InCallMessage(peer, session, d) {
        case Some(p) =>
          if p.kind == KIND_HELLO {
            ControlParses(s.server, peer, KIND_ACCEPT, session);
            SendingKeepsInvariant(s, Control(s.server, peer, KIND_ACCEPT, session));
          } else if p.kind == KIND_BYE {
            var s' := s.(serverEnd := HungUp(peer, session));
            assert forall e :: HonestDatagram(s, e) ==> HonestDatagram(s', e);
          } else if p.kind == KIND_AUDIO {
            var s' := s.(serverQueue := s.serverQueue + [p]);
            assert Carries(d, peer, s.server, p);
            assert forall e :: HonestDatagram(s, e) ==> HonestDatagram(s', e);
          }
        case None =>
      }
    case _ =>
  }

  lemma ClientReceivesKeepsInvariant(s: System, c: Address, d: Datagram)
    requires Invariant(s)
    requires d in s.sent && d.to == c && c in s.clients && c in s.clientQueues
    ensures Invariant(ClientReceives(s, c, d))
  {
    var s' := ClientReceives(s, c, d);
    match s.clients[c]
    case Calling(session) =>
      match InCallMessage(s.server, session, d) {
        case Some(p) =>
          if p.kind == KIND_ACCEPT {
            assert HonestDatagram(s, d);
            assert forall e :: HonestDatagram(s, e) ==> HonestDatagram(s', e);
          }
        case None =>
      }
    case InCall(peer, session) =>
      match InCallMessage(peer, session, d) {
        case Some(p) =>
          if p.kind == KIND_HELLO {
            ControlParses(c, peer, KIND_ACCEPT, session);
            SendingKeepsInvariant(s, Control(c, peer, KIND_ACCEPT, session));
          } else if p.kind == KIND_BYE {
            assert forall e :: HonestDatagram(s, e) ==> HonestDatagram(s', e);
          } else if p.kind == KIND_AUDIO {
            assert (c, session) in s.completed;
            assert Carries(d, s.server, c, p);
            assert forall e :: HonestDatagram(s, e) ==> HonestDatagram(s', e);
          }
        case None =>
      }
    case _ =>
  }

  lemma DialKeepsInvariant(s: System, c: Address, session: nat)
    requires Invariant(s)
    ensures Invariant(Step(s, Dial(c, session)))
  {
    var s' := Step(s, Dial(c, session));
    assert Binding(s') == Binding(s);
    assert forall e :: HonestDatagram(s, e) ==> HonestDatagram(s', e);
  }

  lemma StepKeepsInvariant(s: System, a: Action)
    requires Invariant(s)
    ensures Invariant(Step(s, a))
  {
    match a
    case Dial(c, session) => DialKeepsInvariant(s, c, session);
    case SayHello(c) =>
      if c in s.clients && s.clients[c].Calling? {
        ControlParses(c, s.server, KIND_HELLO, s.clients[c].session);
        SendingKeepsInvariant(s, Control(c, s.server, KIND_HELLO, s.clients[c].session));
      }
    case DeliverToServer(d) =>
      if d in s.sent && d.to == s.server { ServerReceivesKeepsInvariant(s, d); }
    case DeliverToClient(d) =>
      if d in s.sent && d.to in s.clients { ClientReceivesKeepsInvariant(s, d.to, d); }
    case ServerAudio(seqNo, audio) =>
      if s.serverEnd.InCall? && AudioTyped(seqNo, audio) {
        SentParses(s.server, s.serverEnd.peer, KIND_AUDIO, s.serverEnd.session, seqNo, audio);
        SendingKeepsInvariant(s, Send(s.server, s.serverEnd.peer, KIND_AUDIO, s.serverEnd.session, seqNo, audio));
      }
    case ClientAudio(c, seqNo, audio) =>
      if c in s.clients && s.clients[c].InCall? && AudioTyped(seqNo, audio) {
        SentParses(c, s.server, KIND_AUDIO, s.clients[c].session, seqNo, audio);
        SendingKeepsInvariant(s, Send(c, s.server, KIND_AUDIO, s.clients[c].session, seqNo, audio));
      }
    case ServerBye =>
      if s.serverEnd.InCall? {
        ControlParses(s.server, s.serverEnd.peer, KIND_BYE, s.serverEnd.session);
        SendingKeepsInvariant(s, Control(s.server, s.serverEnd.peer, KIND_BYE, s.serverEnd.session));
      }
    case ClientBye(c) =>
      if c in s.clients && s.clients[c].InCall? {
        ControlParses(c, s.server, KIND_BYE, s.clients[c].session);
        SendingKeepsInvariant(s, Control(c, s.server, KIND_BYE, s.clients[c].session));
      }
    case Outsider(d) =>
      if d.from !in s.honest && d.from != s.server { SendingKeepsInvariant(s, d); }
  }

  lemma {:induction false} RunKeepsInvariant(s: System, actions: seq<Action>)
    requires Invariant(s)
    ensures Invariant(Run(s, actions))
    decreases |actions|
  {
    if actions != [] {
      StepKeepsInvariant(s, actions[0]);
      RunKeepsInvariant(Step(s, actions[0]), actions[1..]);
    }
  }

  /** The server keeps the first peer for the lifetime of the call. */
  lemma {:induction false} BindingIsForever(s: System, actions: seq<Action>)
    requires Binding(s).Some?
    ensures Binding(Run(s, actions)) == Binding(s)
    decreases |actions|
  {
    if actions != [] {
      BindingIsForever(Step(s, actions[0]), actions[1..]);
    }
  }

  /** In every reachable state at most one client address and session have completed, and they are the ones the
      server bound. */
  lemma AtMostOneCallCompletes(server: Address, honest: set<Address>, actions: seq<Action>)
    ensures var s := Run(Initial(server, honest), actions);
            && (forall x <- s.completed :: Binding(s) == Some(x))
            && |s.completed| <= 1
  {
    var s := Run(Initial(server, honest), actions);
    RunKeepsInvariant(Initial(server, honest), actions);
    if s.completed != {} {
      var x :| x in s.completed;
      assert s.completed == {x};
    }
  }

  /** In every reachable state every packet the server queued was sent to it by the peer it is bound to, in that
      session, and an honest peer had completed the handshake with that very session. */
  lemma ServerPlaysOnlyItsPeer(server: Address, honest: set<Address>, actions: seq<Action>, i: nat)
    requires i < |Run(Initial(server, honest), actions).serverQueue|
    ensures var s := Run(Initial(server, honest), actions);
            var p := s.serverQueue[i];
            && p.kind == KIND_AUDIO
            && Binding(s).Some? && Binding(s).value.1 == p.session
            && Carried(s.sent, Binding(s).value.0, server, p)
            && (Binding(s).value.0 in honest - {server} ==> Binding(s).value in s.completed)
  {
    var s := Run(Initial(server, honest), actions);
    RunKeepsInvariant(Initial(server, honest), actions);
    ParametersStay(Initial(server, honest), actions);
    var p := s.serverQueue[i];
    assert FromBoundPeer(Binding(s), s.sent, s.server, p);
    var peer := Binding(s).value.0;
    var d :| d in s.sent && Carries(d, peer, s.server, p);
    assert HonestDatagram(s, d);
  }

  /** In every reachable state every packet a client queued was sent to it by the server, which is bound to
      exactly this client in exactly this session. */
  lemma ClientPlaysOnlyTheServer(server: Address, honest: set<Address>, actions: seq<Action>, c: Address, i: nat)
    requires c in Run(Initial(server, honest), actions).clientQueues
    requires i < |Run(Initial(server, honest), actions).clientQueues[c]|
    ensures var s := Run(Initial(server, honest), actions);
            var p := s.clientQueues[c][i];
            && p.kind == KIND_AUDIO
            && Binding(s) == Some((c, p.session))
            && Carried(s.sent, server, c, p)
  {
    var s := Run(Initial(server, honest), actions);
    RunKeepsInvariant(Initial(server, honest), actions);
    ParametersStay(Initial(server, honest), actions);
    assert FromServer(Binding(s), s.sent, s.server, c, s.clientQueues[c][i]);
  }

  lemma {:induction false} ParametersStay(s: System, actions: seq<Action>)
    ensures Run(s, actions).server == s.server && Run(s, actions).honest == s.honest
    decreases |actions|
  {
    hide Step;
    if actions != [] {
      StepKeepsParameters(s, actions[0]);
      ParametersStay(Step(s, actions[0]), actions[1..]);
    }
  }

  lemma StepKeepsParameters(s: System, a: Action)
    ensures Step(s, a).server == s.server && Step(s, a).honest == s.honest
  {
  }
}
