/** Connectivity and the setup channels: src/network/NetworkManager.cpp publishing on the queued bus
    to src/pairing/ProvisioningController.cpp. The network hardware's answers are inputs. */
module Provisioning {
  import opened Options

  datatype NetworkStatus = NetworkStatus(connected: bool, mode: string, ip: string)

  datatype Event = NetworkConnected(mode: string, ip: string) | NetworkDisconnected | IpChanged(ip: string)

  // ------------------------------------------------------------- the network manager

  datatype Net = Net(connected: bool, ip: string, mode: string)

  const NO_NET := Net(false, "", "")

  /** The manager after an update, and what it published. */
  datatype Update = Update(net: Net, out: seq<Event>)

  function PublishConnected(n: Net, st: NetworkStatus, periodic: bool): Update {
    var ipChanged := n.connected && st.ip != n.ip;
    var changed := !n.connected || ipChanged || st.mode != n.mode;
    if !changed && !periodic then Update(n, [])
    else Update(Net(true, st.ip, st.mode),
                [NetworkConnected(st.mode, st.ip)] + (if ipChanged then [IpChanged(st.ip)] else []))
  }

  function PublishDisconnected(n: Net, force: bool): Update {
    Update(NO_NET, if n.connected || force then [NetworkDisconnected] else [])
  }

  function ApplyStatus(n: Net, st: NetworkStatus, periodic: bool): Update {
    if st.connected then PublishConnected(n, st, periodic) else PublishDisconnected(n, false)
  }

  /** None is a hardware error: the last known state is kept. */
  function Refreshed(n: Net, st: Option<NetworkStatus>): Update {
    if st.None? then Update(n, []) else ApplyStatus(n, st.value, true)
  }

  function WifiTried(n: Net, joined: bool, st: Option<NetworkStatus>): Update {
    if joined && st.Some? && st.value.connected then ApplyStatus(n, st.value, false)
    else PublishDisconnected(n, true)
  }

  class NetworkManager {
    var connected: bool
    var ip: string
    var mode: string
    var published: seq<Event>

    function View(): Net
      reads this
    {
      Net(connected, ip, mode)
    }

    constructor ()
      ensures View() == NO_NET && published == []
    {
      connected, ip, mode, published := false, "", "", [];
    }

    method Connect(st: NetworkStatus, periodic: bool)
      modifies this
      ensures var u := PublishConnected(old(View()), st, periodic);
              View() == u.net && published == old(published) + u.out
    {
      var wasConnected := connected;
      var ipChanged := wasConnected && st.ip != ip;
      var modeChanged := wasConnected && st.mode != mode;
      var changed := !wasConnected || ipChanged || modeChanged;
      if !changed && !periodic {
        return;
      }
      connected, ip, mode := true, st.ip, st.mode;
      published := published + [NetworkConnected(st.mode, st.ip)];
      if ipChanged {
        published := published + [IpChanged(st.ip)];
      }
    }

    method Disconnect(force: bool)
      modifies this
      ensures var u := PublishDisconnected(old(View()), force);
              View() == u.net && published == old(published) + u.out
    {
      var wasConnected := connected;
      connected, ip, mode := false, "", "";
      if !wasConnected && !force {
        return;
      }
      published := published + [NetworkDisconnected];
    }

    method Refresh(st: Option<NetworkStatus>)
      modifies this
      ensures var u := Refreshed(old(View()), st);
              View() == u.net && published == old(published) + u.out
    {
      if st.None? {
        return;
      }
      if st.value.connected {
        Connect(st.value, true);
      } else {
        Disconnect(false);
      }
    }

    method ConnectWifi(joined: bool, st: Option<NetworkStatus>) returns (ok: bool)
      modifies this
      ensures var u := WifiTried(old(View()), joined, st);
              View() == u.net && published == old(published) + u.out
      ensures ok <==> joined && st.Some? && st.value.connected
    {
      if !joined {
        Disconnect(true);
        return false;
      }
      if st.Some? && st.value.connected {
        Connect(st.value, false);
        return true;
      }
      Disconnect(true);
      return false;
    }
  }

  // ------------------------------------------------------------- the provisioning controller

  datatype Channel = Ble | Hotspot

  datatype Flags = Flags(ble: bool, hotspot: bool)

  datatype Command = Command(channel: Channel, on: bool)

  /** The controller's flags and the actuator calls it has made. */
  datatype Control = Control(flags: Flags, commands: seq<Command>)

  function SetBle(c: Control, on: bool): Control {
    if on == c.flags.ble then c
    else Control(c.flags.(ble := on), c.commands + [Command(Ble, on)])
  }

  /** Turning the hotspot off is issued even when the flag is already off. */
  function SetHotspot(c: Control, on: bool): Control {
    if on && c.flags.hotspot then c
    else Control(c.flags.(hotspot := on), c.commands + [Command(Hotspot, on)])
  }

  function ApplyConnectivity(c: Control, uplink: bool, onWifi: bool): Control {
    SetHotspot(SetBle(c, !onWifi), !uplink)
  }

  function React(c: Control, e: Event): Control {
    match e
    case NetworkConnected(mode, _) => ApplyConnectivity(c, true, mode == "wifi")
    case NetworkDisconnected => ApplyConnectivity(c, false, false)
    case IpChanged(_) => c
  }

  class ProvisioningController {
    var bleOn: bool
    var hotspotOn: bool
    var commands: seq<Command>

    function View(): Control
      reads this
    {
      Control(Flags(bleOn, hotspotOn), commands)
    }

    constructor ()
      ensures View() == Control(Flags(false, false), [])
    {
      bleOn, hotspotOn, commands := false, false, [];
    }

    method SetChannel(ch: Channel, on: bool, enforce: bool)
      modifies this
      ensures ch == Ble && !enforce ==> View() == SetBle(old(View()), on)
      ensures ch == Hotspot && enforce == !on ==> View() == SetHotspot(old(View()), on)
    {
      var changed := on != (if ch == Ble then bleOn else hotspotOn);
      if !changed && !enforce {
        return;
      }
      if ch == Ble {
        bleOn := on;
      } else {
        hotspotOn := on;
      }
      commands := commands + [Command(ch, on)];
    }

    method Apply(uplink: bool, onWifi: bool)
      modifies this
      ensures View() == ApplyConnectivity(old(View()), uplink, onWifi)
    {
      SetChannel(Ble, !onWifi, false);
      var desired := !uplink;
      SetChannel(Hotspot, desired, desired == false);
    }

    method OnEvent(e: Event)
      modifies this
      ensures View() == React(old(View()), e)
    {
      match e
      case NetworkConnected(mode, _) => Apply(true, mode == "wifi");
      case NetworkDisconnected => Apply(false, false);
      case IpChanged(_) =>
    }
  }

  // ------------------------------------------------------------- both over the bus

  /** What is really running: the controller's commands act on it, and so may anyone else. */
  datatype Device = Device(ble: bool, hotspot: bool)

  function Actuated(d: Device, c: Command): Device {
    if c.channel == Ble then d.(ble := c.on) else d.(hotspot := c.on)
  }

  function ActuatedAll(d: Device, cs: seq<Command>): Device
    decreases |cs|
  {
    if cs == [] then d else ActuatedAll(Actuated(d, cs[0]), cs[1..])
  }

  datatype World = World(net: Net, queue: seq<Event>, started: bool, flags: Flags, device: Device)

  const BOOT := World(NO_NET, [], false, Flags(false, false), Device(false, false))

  datatype Action =
    | Refresh(status: Option<NetworkStatus>)
    | ConnectWifi(joined: bool, status: Option<NetworkStatus>)
    | StartController                // probes the network manager's current state
    | Deliver                        // the oldest pending event reaches the controller, if subscribed
    | Drift(device: Device)          // anything outside the two modules starts or stops a channel

  function Noted(w: World, u: Update): World {
    w.(net := u.net, queue := w.queue + u.out)
  }

  function Commanded(w: World, c: Control): World {
    w.(flags := c.flags, device := ActuatedAll(w.device, c.commands))
  }

  function OnWifi(n: Net): bool {
    n.connected && n.mode == "wifi"
  }

  function Delivered(w: World): World
    requires w.queue != []
  {
    var v := w.(queue := w.queue[1..]);
    if w.started then Commanded(v, React(Control(w.flags, []), w.queue[0])) else v
  }

  function Act(w: World, a: Action): World {
    match a
    case Refresh(st) => Noted(w, Refreshed(w.net, st))
    case ConnectWifi(joined, st) => Noted(w, WifiTried(w.net, joined, st))
    case StartController =>
      Commanded(w.(started := true), ApplyConnectivity(Control(w.flags, []), w.net.connected, OnWifi(w.net)))
    case Deliver => if w.queue == [] then w else Delivered(w)
    case Drift(d) => w.(device := d)
  }

  function After(run: seq<Action>): World {
    if run == [] then BOOT else Act(After(run[..|run| - 1]), run[|run| - 1])
  }

  /** The product rule: hotspot exactly without an uplink, BLE exactly while not on Wi-Fi. */
  function Desired(n: Net): Flags {
    Flags(!OnWifi(n), !n.connected)
  }

  /** The flags once every pending event has been delivered. */
  function Folded(f: Flags, queue: seq<Event>): Flags
    decreases |queue|
  {
    if queue == [] then f else Folded(React(Control(f, []), queue[0]).flags, queue[1..])
  }

  /** What the last connectivity event of a queue asks for. */
  function Latest(q: seq<Event>): Option<Flags> {
    if q == [] then None
    else match q[|q| - 1]
      case NetworkConnected(mode, _) => Some(Flags(mode != "wifi", false))
      case NetworkDisconnected => Some(Flags(true, true))
      case IpChanged(_) => Latest(q[..|q| - 1])
  }

  lemma {:induction false} LatestConcat(q: seq<Event>, r: seq<Event>)
    ensures Latest(q + r) == if Latest(r).Some? then Latest(r) else Latest(q)
    decreases |r|
  {
    if r == [] {
      assert q + r == q;
    } else {
      assert (q + r)[..|q + r| - 1] == q + r[..|r| - 1];
      LatestConcat(q, r[..|r| - 1]);
    }
  }

  /** Delivering a queue leaves what its last connectivity event asks for. */
  lemma {:induction false} FoldedIsLatest(f: Flags, q: seq<Event>)
    ensures Folded(f, q) == if Latest(q).Some? then Latest(q).value else f
    decreases |q|
  {
    if q != [] {
      FoldedIsLatest(React(Control(f, []), q[0]).flags, q[1..]);
      LatestConcat([q[0]], q[1..]);
      assert q == [q[0]] + q[1..];
      assert [q[0]][..0] == [];
    }
  }

  /** An update publishes what its new state wants, unless that is what the old state wanted. */
  predicate Announces(before: Net, u: Update) {
    match Latest(u.out)
    case Some(f) => f == Desired(u.net)
    case None => Desired(u.net) == Desired(before)
  }

  lemma ConnectAnnounces(n: Net, st: NetworkStatus, periodic: bool)
    requires st.connected
    ensures Announces(n, PublishConnected(n, st, periodic))
  {
    LatestConcat([NetworkConnected(st.mode, st.ip)], [IpChanged(st.ip)]);
    LatestConcat([NetworkConnected(st.mode, st.ip)], []);
    assert [IpChanged(st.ip)][..0] == [];
  }

  lemma DisconnectAnnounces(n: Net, force: bool)
    ensures Announces(n, PublishDisconnected(n, force))
  {
  }

  lemma UpdatesAnnounce(n: Net, joined: bool, st: Option<NetworkStatus>)
    ensures Announces(n, Refreshed(n, st)) && Announces(n, WifiTried(n, joined, st))
  {
    DisconnectAnnounces(n, true);
    DisconnectAnnounces(n, false);
    if st.Some? && st.value.connected {
      ConnectAnnounces(n, st.value, true);
      ConnectAnnounces(n, st.value, false);
    }
  }

  /** Pending connectivity events end with the current one; without any, the flags are right. */
  predicate Inv(w: World) {
    match Latest(w.queue)
    case Some(f) => f == Desired(w.net)
    case None => w.started ==> w.flags == Desired(w.net)
  }

  lemma ActKeepsInv(w: World, a: Action)
    requires Inv(w)
    ensures Inv(Act(w, a))
  {
    match a
    case Refresh(st) =>
      UpdatesAnnounce(w.net, true, st);
      LatestConcat(w.queue, Refreshed(w.net, st).out);
    case ConnectWifi(joined, st) =>
      UpdatesAnnounce(w.net, joined, st);
      LatestConcat(w.queue, WifiTried(w.net, joined, st).out);
    case StartController =>
    case Deliver =>
      if w.queue != [] {
        LatestConcat([w.queue[0]], w.queue[1..]);
        assert w.queue == [w.queue[0]] + w.queue[1..];
        assert [w.queue[0]][..0] == [];
      }
    case Drift(_) =>
  }

  lemma {:induction false} RunKeepsInv(run: seq<Action>)
    ensures Inv(After(run))
  {
    if run != [] {
      RunKeepsInv(run[..|run| - 1]);
      ActKeepsInv(After(run[..|run| - 1]), run[|run| - 1]);
    }
  }

  /** In every run, once the controller has started, delivering the pending events gives exactly the
      product rule for the network manager's current state. */
  lemma PendingEventsSettle(run: seq<Action>)
    requires After(run).started
    ensures Folded(After(run).flags, After(run).queue) == Desired(After(run).net)
  {
    RunKeepsInv(run);
    FoldedIsLatest(After(run).flags, After(run).queue);
  }

  // ------------------------------------------------------------- drift

  function DeliveredAll(w: World): World
    decreases |w.queue|
  {
    if w.queue == [] then w else DeliveredAll(Delivered(w))
  }

  lemma {:induction false} DeliveredAllFolds(w: World)
    requires w.started
    ensures DeliveredAll(w).flags == Folded(w.flags, w.queue)
    decreases |w.queue|
  {
    if w.queue != [] {
      DeliveredAllFolds(Delivered(w));
    }
  }

  /** What one delivery does to the real hotspot: a connection always stops it; a disconnection
      starts it only when the controller thought it was off. */
  lemma DeliveryActuates(w: World)
    requires w.started && w.queue != []
    ensures var v := Delivered(w);
            match w.queue[0]
            case NetworkConnected(_, _) => !v.device.hotspot && !v.flags.hotspot
            case NetworkDisconnected => v.flags.hotspot && (v.device.hotspot <==> w.device.hotspot || !w.flags.hotspot)
            case IpChanged(_) => v.device == w.device && v.flags == w.flags
  {
    var c := Control(w.flags, []);
    match w.queue[0]
    case NetworkConnected(mode, _) =>
      var b := SetBle(c, mode != "wifi");
      ActuatedSnoc(w.device, b.commands, Command(Hotspot, false));
    case NetworkDisconnected =>
      var b := SetBle(c, true);
      assert b.commands == [] || b.commands == [Command(Ble, true)];
      if b.commands != [] {
        ActuatedSnoc(w.device, [], b.commands[0]);
      }
      assert ActuatedAll(w.device, b.commands).hotspot == w.device.hotspot;
      ActuatedSnoc(w.device, b.commands, Command(Hotspot, true));
    case IpChanged(_) =>
  }

  lemma {:induction false} ActuatedSnoc(d: Device, cs: seq<Command>, c: Command)
    ensures ActuatedAll(d, cs + [c]) == Actuated(ActuatedAll(d, cs), c)
    decreases |cs|
  {
    if cs == [] {
      assert cs + [c] == [c];
      assert ActuatedAll(d, [c]) == ActuatedAll(Actuated(d, c), [c][1..]);
      assert [c][1..] == [];
    } else {
      assert (cs + [c])[1..] == cs[1..] + [c];
      ActuatedSnoc(Actuated(d, cs[0]), cs[1..], c);
    }
  }

  /** The last connectivity event of the queue is a connection. */
  predicate EndsConnected(q: seq<Event>) {
    Latest(q).Some? && !Latest(q).value.hotspot
  }

  /** If the pending events end with a connection, delivering them stops the real hotspot. */
  lemma {:induction false} ConnectionStopsHotspot(w: World)
    requires w.started
    requires EndsConnected(w.queue) || (Latest(w.queue).None? && !w.device.hotspot)
    ensures !DeliveredAll(w).device.hotspot
    decreases |w.queue|
  {
    if w.queue != [] {
      var e := w.queue[0];
      assert w.queue == [e] + w.queue[1..];
      LatestConcat([e], w.queue[1..]);
      assert [e][..0] == [];
      DeliveryActuates(w);
      ConnectionStopsHotspot(Delivered(w));
    }
  }

  /** Healing: whatever drifted and whatever is pending, one poll that finds an uplink, once
      delivered, leaves the real hotspot down. */
  lemma PollHealsDrift(w: World, st: NetworkStatus)
    requires w.started && st.connected
    ensures var v := DeliveredAll(Act(w, Refresh(Some(st))));
            !v.device.hotspot && !v.flags.hotspot
  {
    var v := Act(w, Refresh(Some(st)));
    var out := Refreshed(w.net, Some(st)).out;
    ConnectAnnounces(w.net, st, true);
    LatestConcat(w.queue, out);
    LatestConcat([NetworkConnected(st.mode, st.ip)], out[1..]);
    assert out == [NetworkConnected(st.mode, st.ip)] + out[1..];
    assert [NetworkConnected(st.mode, st.ip)][..0] == [];
    assert Latest(out).Some?;
    ConnectionStopsHotspot(v);
    DeliveredAllFolds(v);
    FoldedIsLatest(v.flags, v.queue);
  }

  /** Delivering a queue with one more event is delivering the queue, then that event. */
  lemma {:induction false} DeliveredAllSnoc(w: World, q: seq<Event>, e: Event)
    requires w.queue == q + [e]
    ensures DeliveredAll(w) == Delivered(DeliveredAll(w.(queue := q)).(queue := [e]))
    ensures DeliveredAll(w.(queue := q)).started == w.started && DeliveredAll(w.(queue := q)).net == w.net
    decreases |q|
  {
    if q == [] {
      assert w.queue == [e];
      assert DeliveredAll(Delivered(w)) == Delivered(w);
    } else {
      var v := w.(queue := q);
      assert w.queue[1..] == q[1..] + [e] && w.queue[0] == q[0];
      assert Delivered(w).(queue := q[1..]) == Delivered(v);
      DeliveredAllSnoc(Delivered(w), q[1..], e);
    }
  }

  /** The other direction is healed only in part. When a join fails, whatever is still pending,
      delivering everything leaves the real hotspot up if and only if there had been an uplink before
      the attempt, or the events already pending would have left it up. */
  lemma FailedJoinRaisesIff(w: World, joined: bool, st: Option<NetworkStatus>)
    requires Inv(w) && w.started
    requires !(joined && st.Some? && st.value.connected)
    ensures var v := DeliveredAll(Act(w, ConnectWifi(joined, st)));
            && !v.net.connected && v.flags == Desired(v.net)
            && (v.device.hotspot <==> w.net.connected || DeliveredAll(w).device.hotspot)
  {
    var v := Act(w, ConnectWifi(joined, st));
    var before := w.(net := NO_NET);
    assert v.queue == w.queue + [NetworkDisconnected];
    DeliveredAllSnoc(v, w.queue, NetworkDisconnected);
    assert v.(queue := w.queue) == before;
    NetDoesNotMatter(w, NO_NET);
    var last := DeliveredAll(before).(queue := [NetworkDisconnected]);
    DeliveredAllFolds(w);
    FoldedIsLatest(w.flags, w.queue);
    assert last.flags == Desired(w.net);
    DeliveryActuates(last);
    assert last.queue[1..] == [];
  }

  /** Deliveries do not look at the network manager. */
  lemma {:induction false} NetDoesNotMatter(w: World, n: Net)
    ensures DeliveredAll(w.(net := n)) == DeliveredAll(w).(net := n)
    decreases |w.queue|
  {
    if w.queue != [] {
      assert Delivered(w.(net := n)) == Delivered(w).(net := n);
      NetDoesNotMatter(Delivered(w), n);
    }
  }

  /** The failing case from boot: onboarding, where the join itself took the hotspot down. */
  lemma FailedJoinLeavesHotspotDown()
    ensures var run := [StartController, Drift(Device(true, false)), ConnectWifi(false, None), Deliver];
            var w := After(run);
            w.queue == [] && !w.net.connected && w.flags.hotspot && !w.device.hotspot
  {
    var a, b, c, d := StartController, Drift(Device(true, false)), ConnectWifi(false, None), Deliver;
    assert [a, b, c, d][..3] == [a, b, c];
    assert [a, b, c][..2] == [a, b];
    assert [a, b][..1] == [a];
    assert [a][..0] == [];
    assert After([a]) == Act(BOOT, a);
    assert After([a, b]) == Act(After([a]), b);
    assert After([a, b, c]) == Act(After([a, b]), c);
    assert After([a, b, c, d]) == Act(After([a, b, c]), d);
    RunKeepsInv([a, b]);
    var w, v := After([a, b]), After([a, b, c]);
    FailedJoinRaisesIff(w, false, None);
    assert w.queue == [] && v.queue == [NetworkDisconnected] && v.queue[1..] == [];
    assert DeliveredAll(v) == Delivered(v);
  }
}
