// WebSocketService: connected sockets, the two-way subscription index, and channel access.

module Subscriptions {
  import opened Text

  // ---------------------------------------------------------------- channel access

  datatype Role = UserRole | OperatorRole | AdminRole

  /** region and meterId are "" when the token has none. */
  datatype Auth = Auth(role: Role, region: string, meterId: string)

  predicate StartsWith(s: string, prefix: string) {
    prefix <= s
  }

  /** channel.split(':')[1] for a channel that contains a colon */
  function SecondPart(channel: string): string {
    var parts := Split(channel, ':');
    if |parts| > 1 then parts[1] else ""
  }

  predicate CanAccessChannel(client: Auth, channel: string) {
    if client.role.AdminRole? then true
    else if client.role.OperatorRole? && channel in ["alerts", "tariffs", "alert_status_updates"] then true
    else if client.role.OperatorRole? && StartsWith(channel, "region:") then true
    else if channel == "tariffs" then true
    else if StartsWith(channel, "region:") && client.region != "" then SecondPart(channel) == client.region
    else if StartsWith(channel, "meter:") && client.meterId != "" then SecondPart(channel) == client.meterId
    else false
  }

  function DefaultChannels(client: Auth): seq<string> {
    (if client.role.UserRole? then ["tariffs"] else ["alerts", "tariffs", "alert_status_updates"]) +
    (if client.region != "" then ["region:" + client.region] else []) +
    (if client.meterId != "" then ["meter:" + client.meterId] else [])
  }

  /** channel names `name` within its kind: the name itself, or the name and further parts. */
  predicate Names(channel: string, kind: string, name: string) {
    ':' !in name && (channel == kind + ":" + name || StartsWith(channel, kind + ":" + name + ":"))
  }

  lemma {:induction false} FirstPart(s: string, name: string)
    ensures Split(s, ':')[0] == name <==> ':' !in name && (s == name || StartsWith(s, name + ":"))
  {
    if s == "" {
    } else if s[0] == ':' {
      assert name == "" ==> StartsWith(s, name + ":");
    } else {
      if name != "" && name[0] == s[0] {
        FirstPart(s[1..], name[1..]);
        assert s == [s[0]] + s[1..] && name == [name[0]] + name[1..];
        assert (name + ":")[1..] == name[1..] + ":";
        assert StartsWith(s, name + ":") <==> StartsWith(s[1..], name[1..] + ":");
      } else if name == "" {
        assert Split(s, ':')[0][0] == s[0];
      }
    }
  }

  lemma SecondPartMeaning(channel: string, kind: string, name: string)
    requires ':' !in kind && StartsWith(channel, kind + ":")
    ensures SecondPart(channel) == name <==> Names(channel, kind, name)
  {
    var rest := channel[|kind| + 1..];
    assert channel == kind + [':'] + rest;
    SplitAppend(kind, ':', rest);
    SplitWord(kind, ':');
    FirstPart(rest, name);
    assert channel == kind + ":" + name <==> rest == name;
    var p := kind + ":" + name + ":";
    assert p == (kind + ":") + (name + ":");
    assert StartsWith(channel, p) <==> StartsWith(rest, name + ":");
  }

  /** Who may read which channel: a plain user its own region's and meter's channels and the tariffs,
      an operator also every region and the three shared channels, an admin everything. */
  lemma AccessMeaning(client: Auth, channel: string)
    ensures CanAccessChannel(client, channel) <==>
      || client.role.AdminRole?
      || (client.role.OperatorRole?
          && (channel in ["alerts", "tariffs", "alert_status_updates"] || StartsWith(channel, "region:")))
      || channel == "tariffs"
      || (client.region != "" && Names(channel, "region", client.region))
      || (client.meterId != "" && Names(channel, "meter", client.meterId))
  {
    hide SecondPart;
    assert "region" + ":" == "region:" && "meter" + ":" == "meter:";
    if StartsWith(channel, "region:") {
      SecondPartMeaning(channel, "region", client.region);
      assert channel[0] == 'r' && !Names(channel, "meter", client.meterId);
    } else {
      assert !Names(channel, "region", client.region) by { PrefixOfName(channel, "region", client.region); }
    }
    if StartsWith(channel, "meter:") {
      SecondPartMeaning(channel, "meter", client.meterId);
    } else {
      assert !Names(channel, "meter", client.meterId) by { PrefixOfName(channel, "meter", client.meterId); }
    }
  }

  lemma PrefixOfName(channel: string, kind: string, name: string)
    ensures Names(channel, kind, name) ==> StartsWith(channel, kind + ":")
  {
    assert kind + ":" <= kind + ":" + name;
    assert kind + ":" <= kind + ":" + name + ":";
  }

  /** Every default channel is granted exactly when the names put into them have no colon, or the role
      does not need them checked. */
  lemma DefaultsGranted(client: Auth)
    ensures (forall i :: 0 <= i < |DefaultChannels(client)| ==>
             CanAccessChannel(client, DefaultChannels(client)[i])) <==>
      client.role.AdminRole? || ((client.role.OperatorRole? || ':' !in client.region) && ':' !in client.meterId)
  {
    hide CanAccessChannel, Names;
    var region, meter := "region:" + client.region, "meter:" + client.meterId;
    var shared := if client.role.UserRole? then ["tariffs"] else ["alerts", "tariffs", "alert_status_updates"];
    var defaults := DefaultChannels(client);
    assert forall i :: 0 <= i < |shared| ==> defaults[i] == shared[i];
    forall c | c in shared ensures CanAccessChannel(client, c) {
      AccessMeaning(client, c);
    }
    AccessMeaning(client, region);
    AccessMeaning(client, meter);
    OwnName("region", client.region);
    OwnName("meter", client.meterId);
    OtherKind(client.region, client.meterId);
    if client.region != "" {
      assert defaults[|shared|] == region;
    }
    if client.meterId != "" {
      assert defaults[|defaults| - 1] == meter;
    }
  }

  lemma OwnName(kind: string, name: string)
    ensures Names(kind + ":" + name, kind, name) <==> ':' !in name
  {
  }

  lemma OtherKind(region: string, meter: string)
    ensures !Names("region:" + region, "meter", meter) && !Names("meter:" + meter, "region", region)
    ensures "region" + ":" + region == "region:" + region && "meter" + ":" + meter == "meter:" + meter
    ensures "region:" + region != "tariffs" && "meter:" + meter != "tariffs" &&
      StartsWith("region:" + region, "region:")
    ensures !StartsWith("meter:" + meter, "region:")
    ensures "meter:" + meter !in ["alerts", "tariffs", "alert_status_updates"]
  {
    var r, m := "region:" + region, "meter:" + meter;
    assert r[0] == 'r' && m[0] == 'm';
    PrefixOfName(r, "meter", meter);
    PrefixOfName(m, "region", region);
    assert "meter" + ":" == "meter:" && "region" + ":" == "region:";
    assert "alerts"[0] == 'a' && "tariffs"[0] == 't' && "alert_status_updates"[0] == 'a';
  }

  /** What a client is subscribed to when it connects: the tariffs; for operators and admins the alerts too; its own
      region's and meter's channels, but with a colon in the name only where the role needs no check. */
  ghost predicate Initial(client: Auth, channel: string) {
    || channel == "tariffs"
    || (channel in {"alerts", "alert_status_updates"} && client.role in {OperatorRole, AdminRole})
    || (client.region != "" && channel == "region:" + client.region &&
        (client.role in {OperatorRole, AdminRole} || ':' !in client.region))
    || (client.meterId != "" && channel == "meter:" + client.meterId &&
        (client.role == AdminRole || ':' !in client.meterId))
  }

  /** The default channels that are granted are these and no others. */
  lemma InitialChannels(client: Auth, channel: string)
    ensures channel in DefaultChannels(client) && CanAccessChannel(client, channel) <==> Initial(client, channel)
  {
    hide CanAccessChannel, Names;
    AccessMeaning(client, channel);
    OwnName("region", client.region);
    OwnName("meter", client.meterId);
    OtherKind(client.region, client.meterId);
  }

  // ---------------------------------------------------------------- sockets and the service

  class Socket {
    var clientId: string
    var auth: Auth
    var channels: set<string>
    var open: bool
    /** whether ws.send throws */
    var failing: bool
    var sent: seq<string>
    var closeCode: int

    constructor ()
      ensures open && !failing && sent == [] && closeCode == 0
    {
      clientId, auth, channels := "", Auth(UserRole, "", ""), {};
      open, failing, sent, closeCode := true, false, [], 0;
    }
  }

  /** What extractToken and verifyToken make of a connection request. */
  datatype Token = Missing | Rejected | Verified(auth: Auth)

  type Index = map<string, set<Socket>>

  function Members(index: Index, channel: string): set<Socket> {
    if channel in index then index[channel] else {}
  }

  /** The socket is withdrawn from all channels but those left. */
  ghost predicate Withdrawn(before: Index, now: Index, ws: Socket, left: set<string>) {
    forall c: string :: Members(now, c) == if c in left then Members(before, c) else Members(before, c) - {ws}
  }

  lemma WithdrawnNext(before: Index, now: Index, next: Index, ws: Socket, left: set<string>, channel: string)
    requires Withdrawn(before, now, ws, left)
    requires Members(next, channel) == Members(now, channel) - {ws}
    requires forall c :: c != channel ==> Members(next, c) == Members(now, c)
    ensures Withdrawn(before, next, ws, left - {channel})
  {
  }

  lemma WithdrawnAll(before: Index, now: Index, ws: Socket)
    requires Withdrawn(before, now, ws, {})
    ensures forall c :: Members(now, c) == Members(before, c) - {ws}
  {
  }

  class WebSocketService {
    var clients: map<string, Socket>
    var subscriptions: map<string, set<Socket>>
    const maxConnections: nat
    /** the values of `clients` */
    ghost var connected: set<Socket>

    function SubscribersOf(channel: string): set<Socket>
      reads this`subscriptions
    {
      Members(subscriptions, channel)
    }

    ghost predicate ClientsValid()
      reads this`clients, this`connected, connected`clientId
    {
      && |clients| <= maxConnections
      && (forall id :: id in clients ==> clients[id] in connected && clients[id].clientId == id)
      && (forall ws :: ws in connected ==> ws.clientId in clients && clients[ws.clientId] == ws)
    }

    /** The two indexes agree, no channel is empty, every subscriber is connected and every
        subscription is one its socket may have. */
    ghost predicate IndexValid()
      reads this`subscriptions, this`connected, connected`channels, connected`auth
    {
      && (forall c :: c in subscriptions ==> subscriptions[c] != {} && subscriptions[c] <= connected)
      && (forall ws, c :: ws in connected ==> (c in ws.channels <==> ws in SubscribersOf(c)))
      && (forall ws, c :: ws in connected && c in ws.channels ==> CanAccessChannel(ws.auth, c))
    }

    ghost predicate Valid()
      reads this, connected`clientId, connected`channels, connected`auth
    {
      ClientsValid() && IndexValid()
    }

    constructor (maxConnections: nat)
      ensures Valid() && clients == map[] && subscriptions == map[] && this.maxConnections == maxConnections
    {
      this.maxConnections := maxConnections;
      clients, subscriptions, connected := map[], map[], {};
    }

    /** One channel of subscribeToChannels. */
    method Subscribe(ws: Socket, channel: string)
      requires Valid() && ws in connected && CanAccessChannel(ws.auth, channel)
      modifies this`subscriptions, ws`channels
      ensures Valid()
      ensures SubscribersOf(channel) == old(SubscribersOf(channel)) + {ws}
      ensures forall c :: c != channel ==> SubscribersOf(c) == old(SubscribersOf(c))
      ensures ws.channels == old(ws.channels) + {channel}
    {
      hide CanAccessChannel, ClientsValid;
      if channel !in subscriptions {
        subscriptions := subscriptions[channel := {}];
      }
      subscriptions := subscriptions[channel := subscriptions[channel] + {ws}];
      ws.channels := ws.channels + {channel};
      forall s, c | s in connected ensures c in s.channels <==> s in SubscribersOf(c) {
        assert c in old(s.channels) <==> s in old(SubscribersOf(c));
      }
    }

    method SubscribeToChannels(ws: Socket, channels: seq<string>)
      requires Valid() && ws in connected
      modifies this`subscriptions, ws`channels
      ensures Valid()
      ensures forall c :: SubscribersOf(c) == old(SubscribersOf(c)) + Granted(ws, channels, c)
      ensures forall c :: c in ws.channels <==> c in old(ws.channels) || ws in Granted(ws, channels, c)
    {
      hide CanAccessChannel, Valid;
      for i := 0 to |channels|
        invariant Valid()
        invariant forall c :: SubscribersOf(c) == old(SubscribersOf(c)) + Granted(ws, channels[..i], c)
        invariant forall c :: c in ws.channels <==> c in old(ws.channels) || ws in Granted(ws, channels[..i], c)
      {
        assert channels[..i + 1] == channels[..i] + [channels[i]];
        if !CanAccessChannel(ws.auth, channels[i]) {
          continue;
        }
        Subscribe(ws, channels[i]);
      }
      assert channels[..|channels|] == channels;
    }

    /** {ws} when c is asked for and ws may have it */
    ghost function Granted(ws: Socket, channels: seq<string>, c: string): set<Socket>
      reads ws`auth
    {
      if c in channels && CanAccessChannel(ws.auth, c) then {ws} else {}
    }

    /** subscribers.delete(ws), dropping the channel when nobody is left */
    method Withdraw(ws: Socket, channel: string)
      requires forall c :: c in subscriptions ==> subscriptions[c] != {}
      modifies this`subscriptions
      ensures Members(subscriptions, channel) == Members(old(subscriptions), channel) - {ws}
      ensures forall c :: c != channel ==> Members(subscriptions, c) == Members(old(subscriptions), c)
      ensures forall c :: c in subscriptions ==> subscriptions[c] != {}
    {
      if channel in subscriptions {
        var subscribers := subscriptions[channel] - {ws};
        if subscribers == {} {
          subscriptions := subscriptions - {channel};
        } else {
          subscriptions := subscriptions[channel := subscribers];
        }
      }
    }

    /** One channel of unsubscribeFromChannels: nothing happens when the channel has no subscribers. */
    method Unsubscribe(ws: Socket, channel: string)
      requires Valid() && ws in connected
      modifies this`subscriptions, ws`channels
      ensures Valid()
      ensures SubscribersOf(channel) == old(SubscribersOf(channel)) - {ws}
      ensures forall c :: c != channel ==> SubscribersOf(c) == old(SubscribersOf(c))
      ensures ws.channels == old(ws.channels) - {channel}
    {
      hide CanAccessChannel, ClientsValid;
      if channel in subscriptions {
        var subscribers := subscriptions[channel] - {ws};
        ws.channels := ws.channels - {channel};
        if subscribers == {} {
          subscriptions := subscriptions - {channel};
        } else {
          subscriptions := subscriptions[channel := subscribers];
        }
      }
      forall s, c | s in connected ensures c in s.channels <==> s in SubscribersOf(c) {
        assert c in old(s.channels) <==> s in old(SubscribersOf(c));
      }
    }

    method UnsubscribeFromChannels(ws: Socket, channels: seq<string>)
      requires Valid() && ws in connected
      modifies this`subscriptions, ws`channels
      ensures Valid()
      ensures forall c ::
        SubscribersOf(c) == if c in channels then old(SubscribersOf(c)) - {ws} else old(SubscribersOf(c))
      ensures forall c :: c in ws.channels <==> c in old(ws.channels) && c !in channels
    {
      hide CanAccessChannel, Valid;
      for i := 0 to |channels|
        invariant Valid()
        invariant forall c ::
          SubscribersOf(c) == if c in channels[..i] then old(SubscribersOf(c)) - {ws} else old(SubscribersOf(c))
        invariant forall c :: c in ws.channels <==> c in old(ws.channels) && c !in channels[..i]
      {
        assert channels[..i + 1] == channels[..i] + [channels[i]];
        Unsubscribe(ws, channels[i]);
      }
      assert channels[..|channels|] == channels;
    }

    /** handleDisconnection: afterwards no channel lists the socket and the rest is as before. */
    method HandleDisconnection(ws: Socket)
      requires Valid() && ws in connected
      modifies this
      ensures Valid()
      ensures clients == old(clients) - {ws.clientId} && connected == old(connected) - {ws}
      ensures forall c :: SubscribersOf(c) == old(SubscribersOf(c)) - {ws}
    {
      hide CanAccessChannel, ClientsValid;
      WithdrawAll(ws);
      DeleteClient(ws);
      forall c | c in subscriptions ensures subscriptions[c] <= connected {
        assert SubscribersOf(c) == old(SubscribersOf(c)) - {ws};
      }
      forall s, c | s in connected ensures c in s.channels <==> s in SubscribersOf(c) {
        assert c in old(s.channels) <==> s in old(SubscribersOf(c));
      }
    }

    method DeleteClient(ws: Socket)
      requires ClientsValid() && ws in connected
      modifies this`clients, this`connected
      ensures ClientsValid()
      ensures clients == old(clients) - {ws.clientId} && connected == old(connected) - {ws}
    {
      assert clients.Keys == (clients - {ws.clientId}).Keys + {ws.clientId};
      clients := clients - {ws.clientId};
      connected := connected - {ws};
    }

    method AddClient(ws: Socket, freshId: string)
      requires ClientsValid() && ws !in connected && freshId !in clients && |clients| < maxConnections
      modifies this`clients, this`connected, ws`clientId
      ensures ClientsValid() && ws.clientId == freshId
      ensures clients == old(clients)[freshId := ws] && connected == old(connected) + {ws}
    {
      ws.clientId := freshId;
      clients := clients[freshId := ws];
      connected := connected + {ws};
    }

    /** The loop of handleDisconnection over the socket's own channels. */
    method WithdrawAll(ws: Socket)
      requires IndexValid() && ws in connected
      modifies this`subscriptions
      ensures forall c :: SubscribersOf(c) == old(SubscribersOf(c)) - {ws}
      ensures forall c :: c in subscriptions ==> subscriptions[c] != {}
    {
      hide CanAccessChannel;
      var channels := ws.channels;
      assert forall c :: c !in channels ==> ws !in SubscribersOf(c);
      ghost var before := subscriptions;
      assert Withdrawn(before, subscriptions, ws, channels);
      assert forall c :: c in subscriptions ==> subscriptions[c] != {};
      hide IndexValid, Withdrawn;
      while channels != {}
        invariant forall c :: c in subscriptions ==> subscriptions[c] != {}
        invariant Withdrawn(before, subscriptions, ws, channels)
        decreases |channels|
      {
        var channel :| channel in channels;
        ghost var now := subscriptions;
        Withdraw(ws, channel);
        WithdrawnNext(before, now, subscriptions, ws, channels, channel);
        channels := channels - {channel};
      }
      WithdrawnAll(before, subscriptions, ws);
    }

    /** handleConnection: refused at capacity or without a valid token, otherwise registered and
        subscribed to those default channels it may have. */
    method HandleConnection(ws: Socket, token: Token, freshId: string)
      requires Valid() && ws !in connected && freshId !in clients
      modifies this, ws
      ensures Valid()
      ensures old(Admits(token)) <==> old(|clients|) < maxConnections && token.Verified?
      ensures !old(Admits(token)) ==>
        !ws.open && ws.closeCode == if old(|clients|) >= maxConnections then 1008 else 4001
      ensures !old(Admits(token)) ==> clients == old(clients) && connected == old(connected)
      ensures !old(Admits(token)) ==> subscriptions == old(subscriptions)
      ensures old(Admits(token)) ==> ws.auth == token.auth && ws.clientId == freshId
      ensures old(Admits(token)) ==> clients == old(clients)[freshId := ws] && connected == old(connected) + {ws}
      ensures old(Admits(token)) ==> forall c ::
        SubscribersOf(c) == old(SubscribersOf(c)) + Granted(ws, DefaultChannels(token.auth), c)
      ensures old(Admits(token)) ==> forall c :: ws in SubscribersOf(c) <==> Initial(token.auth, c)
      ensures old(Admits(token)) ==> forall c :: SubscribersOf(c) - {ws} == old(SubscribersOf(c))
      ensures old(Admits(token)) ==> ws.open == old(ws.open)
      ensures old(Admits(token)) ==> ws.sent == old(ws.sent) + if ws.failing then [] else ["WELCOME"]
    {
      hide CanAccessChannel, DefaultChannels, Granted, Valid, Initial;
      if |clients| >= maxConnections {
        ws.open, ws.closeCode := false, 1008;
      } else if !token.Verified? {
        ws.open, ws.closeCode := false, 4001;
      } else {
        NotSubscribed(ws);
        ghost var before := subscriptions;
        Admit(ws, token.auth, freshId);
        JoinsInitially(ws, before);
      }
    }

    /** The rest of handleConnection for a verified token. */
    method Admit(ws: Socket, auth: Auth, freshId: string)
      requires Valid() && ws !in connected && freshId !in clients && |clients| < maxConnections
      modifies this, ws
      ensures Valid() && ws.auth == auth && ws.clientId == freshId && ws.open == old(ws.open)
      ensures clients == old(clients)[freshId := ws] && connected == old(connected) + {ws}
      ensures forall c :: SubscribersOf(c) == old(SubscribersOf(c)) + Granted(ws, DefaultChannels(auth), c)
      ensures ws.sent == old(ws.sent) + if ws.failing then [] else ["WELCOME"]
    {
      hide CanAccessChannel, DefaultChannels, Granted, Valid;
      Register(ws, auth, freshId);
      SubscribeToChannels(ws, DefaultChannels(auth));
      SendMessage(ws, "WELCOME");
    }

    lemma NotSubscribed(ws: Socket)
      requires Valid() && ws !in connected
      ensures forall c :: ws !in Members(subscriptions, c)
    {
      hide CanAccessChannel;
    }

    lemma JoinsInitially(ws: Socket, before: Index)
      requires forall c :: ws !in Members(before, c)
      requires forall c :: SubscribersOf(c) == Members(before, c) + Granted(ws, DefaultChannels(ws.auth), c)
      ensures forall c :: ws in SubscribersOf(c) <==> Initial(ws.auth, c)
      ensures forall c :: SubscribersOf(c) - {ws} == Members(before, c)
    {
      hide CanAccessChannel, DefaultChannels, Initial;
      forall c: string
        ensures ws in SubscribersOf(c) <==> Initial(ws.auth, c)
        ensures SubscribersOf(c) - {ws} == Members(before, c)
      {
        InitialChannels(ws.auth, c);
      }
    }

    predicate Admits(token: Token)
      reads this
    {
      |clients| < maxConnections && token.Verified?
    }

    /** The socket joins the clients without any subscription. */
    method Register(ws: Socket, auth: Auth, freshId: string)
      requires Valid() && ws !in connected && freshId !in clients && |clients| < maxConnections
      modifies this`clients, this`connected, ws`clientId, ws`auth, ws`channels
      ensures Valid()
      ensures clients == old(clients)[freshId := ws] && connected == old(connected) + {ws}
      ensures ws.auth == auth && ws.channels == {} && ws.clientId == freshId
    {
      hide CanAccessChannel, ClientsValid;
      assert forall c :: ws !in SubscribersOf(c);
      ws.auth, ws.channels := auth, {};
      AddClient(ws, freshId);
      forall s, c | s in connected && s != ws ensures c in s.channels <==> s in SubscribersOf(c) {
        assert c in old(s.channels) <==> s in old(SubscribersOf(c));
      }
    }

    /** sendMessage swallows a failing send. */
    method SendMessage(ws: Socket, message: string)
      modifies ws`sent
      ensures ws.sent == old(ws.sent) + if ws.failing then [] else [message]
    {
      if !ws.failing {
        ws.sent := ws.sent + [message];
      }
    }

    /** Each open subscriber of the channel gets the message once and nobody else gets anything; the
        count returned is that of open subscribers, failed sends included. */
    method Broadcast(channel: string, message: string) returns (sentCount: nat)
      modifies SubscribersOf(channel)`sent
      ensures sentCount == |Open(SubscribersOf(channel))|
      ensures forall ws :: ws in SubscribersOf(channel) ==> ws.sent == old(ws.sent) + Received(ws, message)
    {
      sentCount := SendAll(SubscribersOf(channel), message);
    }

    /** The broadcast loop over the subscribers. */
    method SendAll(all: set<Socket>, message: string) returns (sentCount: nat)
      modifies all`sent
      ensures sentCount == |Open(all)|
      ensures forall ws :: ws in all ==> ws.sent == old(ws.sent) + Received(ws, message)
    {
      hide Received;
      sentCount := 0;
      var todo := all;
      ghost var reached: set<Socket> := {};
      while todo != {}
        invariant todo <= all && reached <= all - todo
        invariant sentCount == |reached|
        invariant forall ws :: ws in all - todo ==> (ws in reached <==> ws.open)
        invariant forall ws :: ws in todo ==> ws.sent == old(ws.sent)
        invariant forall ws :: ws in all - todo ==> ws.sent == old(ws.sent) + Received(ws, message)
        decreases |todo|
      {
        var ws :| ws in todo;
        todo := todo - {ws};
        var sent := Deliver(ws, message);
        if sent {
          reached := reached + {ws};
          sentCount := sentCount + 1;
        }
      }
      assert reached == Open(all);
    }

    /** The body of the broadcast loop for one subscriber: only an open socket is sent to. */
    method Deliver(ws: Socket, message: string) returns (sent: bool)
      modifies ws`sent
      ensures sent == ws.open && ws.sent == old(ws.sent) + Received(ws, message)
    {
      sent := ws.open;
      if sent {
        SendMessage(ws, message);
      }
    }
  }

  ghost function Open(sockets: set<Socket>): set<Socket>
    reads sockets`open
  {
    set ws | ws in sockets && ws.open
  }

  /** what a subscriber gets out of one broadcast */
  function Received(ws: Socket, message: string): seq<string>
    reads ws`open, ws`failing
  {
    if ws.open && !ws.failing then [message] else []
  }
}
