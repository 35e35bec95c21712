/**
 The ARP resolver: a cache of addresses, packets that wait for an answer, and a watchdog timer that
 repeats the request of RFC 826 and gives up after a few rounds.

 The cache lock serialises `arp_resolve` and `arp_cache_store`, but `arp_resolve` drops the lock of the
 entry before it looks at the retry count, and timers take only the entry lock: so a resolve is two
 steps here, and timers may fire between them.
 */
module Arp {
  import opened Common
  import opened Seqs

  type Ip = nat
  type Mac = nat
  type Packet = nat

  const ARP_RETRYS: int := 5

  /** `retrys` as in the source. For the specification, `timers` counts outstanding watchdog timers,
      `sent` the requests of the current round and `asked` the requests of all rounds. */
  datatype Entry = Entry(
    resolved: bool, mac: Mac, retrys: int, pending: seq<Packet>, timers: nat, sent: nat, asked: nat)

  /** How a packet was handed on: with an address, as broadcast, or to an unknown host. */
  datatype Outcome = ToMac(mac: Mac) | ToBroadcast | UnknownHost

  datatype Handed = Handed(packet: Packet, outcome: Outcome)

  datatype State = State(
    cache: map<Ip, Entry>,
    dest: map<Packet, Option<Ip>>,  // every packet given to arp_resolve; None for the broadcast address
    handed: seq<Handed>,            // the calls of packet_send for them, latest last
    checking: Option<Ip>)           // a resolve between its two steps

  datatype Step =
    | Broadcast(p: Packet)
    | Resolve(p: Packet, ip: Ip)
    | Check
    | Timer(ip: Ip)
    | Store(ip: Ip, mac: Mac)

  /** Hands on packets one after the other. */
  function HandAll(ps: seq<Packet>, out: Outcome): seq<Handed> {
    if ps == [] then [] else [Handed(ps[0], out)] + HandAll(ps[1..], out)
  }

  /** `arp_watchdog` on the entry for `ip` */
  function Watchdog(s: State, ip: Ip): State
    requires ip in s.cache
  {
    var e := s.cache[ip];
    if e.resolved then s
    else if e.retrys + 1 >= ARP_RETRYS then
      s.(cache := s.cache[ip := e.(retrys := -1, pending := [], sent := 0)],
         handed := s.handed + HandAll(e.pending, UnknownHost))
    else
      s.(cache := s.cache[ip := e.(retrys := e.retrys + 1, timers := e.timers + 1,
                                   sent := e.sent + 1, asked := e.asked + 1)])
  }

  predicate Enabled(s: State, step: Step) {
    match step
    case Broadcast(p) => p !in s.dest
    case Resolve(p, ip) => p !in s.dest && s.checking.None?
    case Check => s.checking.Some? && s.checking.value in s.cache
    case Timer(ip) => ip in s.cache && s.cache[ip].timers > 0
    case Store(_, _) => s.checking.None?
  }

  function Do(s: State, step: Step): State
    requires Enabled(s, step)
  {
    match step
    case Broadcast(p) => s.(dest := s.dest[p := None], handed := s.handed + [Handed(p, ToBroadcast)])
    case Resolve(p, ip) =>
      var s' := s.(dest := s.dest[p := Some(ip)]);
      if ip !in s.cache then
        Watchdog(s'.(cache := s.cache[ip := Entry(false, 0, -1, [p], 0, 0, 0)]), ip)
      else
        var e := s.cache[ip];
        if e.resolved then s'.(handed := s.handed + [Handed(p, ToMac(e.mac))])
        else s'.(cache := s.cache[ip := e.(pending := [p] + e.pending)], checking := Some(ip))
    case Check =>
      var ip := s.checking.value;
      var s' := s.(checking := None);
      if s.cache[ip].retrys == -1 then Watchdog(s', ip) else s'
    case Timer(ip) =>
      var e := s.cache[ip];
      Watchdog(s.(cache := s.cache[ip := e.(timers := e.timers - 1)]), ip)
    case Store(ip, mac) =>
      if ip !in s.cache then s.(cache := s.cache[ip := Entry(true, mac, 0, [], 0, 0, 0)])
      else
        var e := s.cache[ip];
        if e.resolved then s
        else s.(cache := s.cache[ip := e.(resolved := true, mac := mac)],
                handed := s.handed + HandAll(e.pending, ToMac(mac)))
  }

  // ---------------------------------------------------------------------------------------------
  // The invariant

  ghost predicate IsHanded(s: State, p: Packet) {
    exists i :: 0 <= i < |s.handed| && s.handed[i].packet == p
  }

  /** The packet waits in the entry for its address. */
  ghost predicate Waits(s: State, p: Packet) {
    && p in s.dest && s.dest[p].Some? && s.dest[p].value in s.cache
    && !s.cache[s.dest[p].value].resolved && p in s.cache[s.dest[p].value].pending
  }

  /** The packets given to the resolver for one address. */
  ghost function Given(s: State, ip: Ip): set<Packet> {
    set p | p in s.dest && s.dest[p] == Some(ip)
  }

  /** A retry count in its range, one request sent for every count, and a list of distinct packets for
      this address. */
  ghost predicate ListOk(s: State, ip: Ip)
    requires ip in s.cache
  {
    var e := s.cache[ip];
    && -1 <= e.retrys < ARP_RETRYS
    && e.sent == e.retrys + 1
    && Distinct(e.pending)
    && forall p :: p in e.pending ==> p in s.dest && s.dest[p] == Some(ip)
  }

  /** The requests still to come in this round. */
  function Room(e: Entry): int {
    if e.retrys == -1 then 0 else ARP_RETRYS - 1 - e.retrys
  }

  /** Requests are paid for by packets: `ARP_RETRYS` for every packet given, except for one whose resolve
      has not yet looked at the retry count. */
  ghost predicate Paid(s: State, ip: Ip)
    requires ip in s.cache
  {
    var e := s.cache[ip];
    e.asked + Room(e) <= ARP_RETRYS * (|Given(s, ip)| - if s.checking == Some(ip) then 1 else 0)
  }

  /** An unresolved entry is idle, or in a round with exactly one timer. */
  ghost predicate EntryOk(s: State, ip: Ip)
    requires ip in s.cache
  {
    var e := s.cache[ip];
    if e.resolved then e.asked <= ARP_RETRYS * |Given(s, ip)|
    else
      && ListOk(s, ip)
      && Paid(s, ip)
      && e.timers == (if e.retrys == -1 then 0 else 1)
      && (e.pending != [] && e.retrys == -1 ==> s.checking == Some(ip))
  }

  /** Every packet given to the resolver has been handed on or waits, never both. */
  ghost predicate PacketOk(s: State, p: Packet)
    requires p in s.dest
  {
    IsHanded(s, p) <==> !Waits(s, p)
  }

  /** A packet that was handed on with an address got the address of its destination. */
  ghost predicate HandedOk(s: State, i: nat)
    requires i < |s.handed|
  {
    var h := s.handed[i];
    && h.packet in s.dest
    && match h.outcome
       case ToBroadcast => s.dest[h.packet].None?
       case ToMac(mac) => s.dest[h.packet].Some? && s.dest[h.packet].value in s.cache
                          && s.cache[s.dest[h.packet].value].resolved && s.cache[s.dest[h.packet].value].mac == mac
       case UnknownHost => s.dest[h.packet].Some?
  }

  ghost predicate Once(h: seq<Handed>) {
    forall i, j :: 0 <= i < j < |h| ==> h[i].packet != h[j].packet
  }

  /** The packets' side of the invariant. */
  ghost predicate PacketsOk(s: State) {
    && (forall p :: p in s.dest ==> PacketOk(s, p))
    && (forall p :: p in s.dest && s.dest[p].Some? ==> s.dest[p].value in s.cache)
    && (forall i :: 0 <= i < |s.handed| ==> HandedOk(s, i))
    && Once(s.handed)
  }

  ghost predicate Inv(s: State) {
    && (forall ip :: ip in s.cache ==> EntryOk(s, ip))
    && PacketsOk(s)
    && (s.checking.Some? ==> s.checking.value in s.cache && !s.cache[s.checking.value].resolved)
  }

  // ---------------------------------------------------------------------------------------------
  // Handing on a list of packets

  lemma {:induction false} HandAllAt(ps: seq<Packet>, out: Outcome)
    ensures |HandAll(ps, out)| == |ps|
    ensures forall i :: 0 <= i < |ps| ==> HandAll(ps, out)[i] == Handed(ps[i], out)
  {
    if ps != [] {
      HandAllAt(ps[1..], out);
    }
  }

  /** Appending the hand-over of distinct packets that were not handed on before. */
  lemma HandMore(s: State, t: State, ps: seq<Packet>, out: Outcome)
    requires t.handed == s.handed + HandAll(ps, out)
    requires Once(s.handed) && Distinct(ps) && forall p :: p in ps ==> !IsHanded(s, p)
    ensures Once(t.handed)
    ensures forall p :: IsHanded(t, p) <==> IsHanded(s, p) || p in ps
  {
    HandAllAt(ps, out);
    forall p
      ensures IsHanded(t, p) <==> IsHanded(s, p) || p in ps
    {
      if IsHanded(s, p) {
        var i :| 0 <= i < |s.handed| && s.handed[i].packet == p;
        assert t.handed[i].packet == p;
      }
      if p in ps {
        var i :| 0 <= i < |ps| && ps[i] == p;
        assert t.handed[|s.handed| + i].packet == p;
      }
    }
    forall i, j | 0 <= i < j < |t.handed|
      ensures t.handed[i].packet != t.handed[j].packet
    {
      if i < |s.handed| <= j {
        assert IsHanded(s, s.handed[i].packet);
        assert t.handed[j].packet == ps[j - |s.handed|];
      }
    }
  }

  // ---------------------------------------------------------------------------------------------
  // The watchdog

  /** The entry for `ip` as the watchdog finds it: no timer runs for it. */
  ghost predicate Due(s: State, ip: Ip) {
    && ip in s.cache
    && (forall other :: other in s.cache && other != ip ==> EntryOk(s, other))
    && PacketsOk(s)
    && (s.checking.Some? ==> s.checking.value in s.cache && !s.cache[s.checking.value].resolved)
    && var e := s.cache[ip];
       if e.resolved then EntryOk(s, ip)
       else
         && ListOk(s, ip)
         && e.timers == 0
         && if e.retrys == -1 then e.asked <= ARP_RETRYS * (|Given(s, ip)| - 1) && s.checking != Some(ip)
            else Paid(s, ip)
  }

  /** Giving up: the packets leave the list and are handed on. */
  lemma GiveUpPackets(s: State, ip: Ip, t: State)
    requires PacketsOk(s) && ip in s.cache && !s.cache[ip].resolved && ListOk(s, ip)
    requires t == s.(cache := s.cache[ip := s.cache[ip].(retrys := -1, pending := [], sent := 0)],
                     handed := s.handed + HandAll(s.cache[ip].pending, UnknownHost))
    ensures PacketsOk(t)
  {
    var ps := s.cache[ip].pending;
    HandAllAt(ps, UnknownHost);
    forall p | p in ps
      ensures !IsHanded(s, p)
    {
      assert PacketOk(s, p) && Waits(s, p);
    }
    HandMore(s, t, ps, UnknownHost);
    forall p | p in t.dest
      ensures PacketOk(t, p)
    {
      assert PacketOk(s, p);
    }
    forall i | 0 <= i < |t.handed|
      ensures HandedOk(t, i)
    {
      if i < |s.handed| {
        assert HandedOk(s, i);
      }
    }
  }

  /** The watchdog leaves the invariant behind: either the round is over with every waiting packet handed
      on, or there is again exactly one timer. */
  lemma WatchdogKeeps(s: State, ip: Ip)
    requires Due(s, ip)
    ensures Inv(Watchdog(s, ip))
  {
    var e, t := s.cache[ip], Watchdog(s, ip);
    assert forall other :: Given(t, other) == Given(s, other);
    if !e.resolved && e.retrys + 1 >= ARP_RETRYS {
      GiveUpPackets(s, ip, t);
    } else {
      SamePackets(s, t);
    }
    forall other | other in t.cache
      ensures EntryOk(t, other)
    {
      if other != ip {
        assert EntryOk(s, other);
      }
    }
  }

  /** Nothing but counters changed. */
  lemma SamePackets(s: State, t: State)
    requires PacketsOk(s)
    requires t.dest == s.dest && t.handed == s.handed && t.cache.Keys == s.cache.Keys
    requires forall ip :: ip in s.cache ==>
               t.cache[ip].resolved == s.cache[ip].resolved && t.cache[ip].pending == s.cache[ip].pending
               && t.cache[ip].mac == s.cache[ip].mac
    ensures PacketsOk(t)
  {
    forall p | p in t.dest
      ensures PacketOk(t, p)
    {
      assert PacketOk(s, p);
      assert IsHanded(s, p) <==> IsHanded(t, p);
    }
    forall i | 0 <= i < |t.handed|
      ensures HandedOk(t, i)
    {
      assert HandedOk(s, i);
    }
  }

  // ---------------------------------------------------------------------------------------------
  // The steps

  /** A packet the resolver has not seen is in no list and was not handed on. */
  lemma Unseen(s: State, p: Packet)
    requires Inv(s) && p !in s.dest
    ensures !IsHanded(s, p)
    ensures forall ip :: ip in s.cache && !s.cache[ip].resolved ==> p !in s.cache[ip].pending
  {
    forall i | 0 <= i < |s.handed|
      ensures s.handed[i].packet != p
    {
      assert HandedOk(s, i);
    }
    assert forall ip :: ip in s.cache ==> EntryOk(s, ip);
  }

  /** The packets given, after one more. */
  lemma GivenMore(s: State, t: State, p: Packet, to: Option<Ip>)
    requires p !in s.dest && t.dest == s.dest[p := to]
    ensures forall ip: Ip :: |Given(t, ip)| == |Given(s, ip)| + if to == Some(ip) then 1 else 0
  {
    hide Given;
    forall ip: Ip
      ensures |Given(t, ip)| == |Given(s, ip)| + if to == Some(ip) then 1 else 0
    {
      GivenTo(s, t, p, to, ip);
    }
  }

  lemma GivenTo(s: State, t: State, p: Packet, to: Option<Ip>, ip: Ip)
    requires p !in s.dest && t.dest == s.dest[p := to]
    ensures |Given(t, ip)| == |Given(s, ip)| + if to == Some(ip) then 1 else 0
  {
    var was, now := Given(s, ip), Given(t, ip);
    if to == Some(ip) {
      assert now == was + {p};
    } else {
      assert now == was;
    }
  }

  /** A packet that is handed on as soon as it is given. */
  lemma HandAtOnce(s: State, t: State, p: Packet, to: Option<Ip>, out: Outcome)
    requires Inv(s) && p !in s.dest
    requires t == s.(dest := s.dest[p := to], handed := s.handed + [Handed(p, out)])
    requires if out == ToBroadcast then to.None?
             else out.ToMac? && to.Some? && to.value in s.cache && s.cache[to.value].resolved
                  && s.cache[to.value].mac == out.mac
    ensures Inv(t)
  {
    Unseen(s, p);
    GivenMore(s, t, p, to);
    assert HandAll([p], out) == [Handed(p, out)];
    HandMore(s, t, [p], out);
    forall q | q in t.dest
      ensures PacketOk(t, q)
    {
      if q != p {
        assert PacketOk(s, q);
      }
    }
    forall i | 0 <= i < |t.handed|
      ensures HandedOk(t, i)
    {
      if i < |s.handed| {
        assert HandedOk(s, i);
      }
    }
    forall ip | ip in t.cache
      ensures EntryOk(t, ip)
    {
      assert EntryOk(s, ip);
    }
  }

  /** The packet side of adding a packet to an unresolved entry, new or not. */
  lemma WaitPackets(s: State, t: State, p: Packet, ip: Ip)
    requires Inv(s) && p !in s.dest
    requires ip in s.cache ==> !s.cache[ip].resolved
    requires t.dest == s.dest[p := Some(ip)] && t.handed == s.handed
    requires ip in t.cache && t.cache == s.cache[ip := t.cache[ip]] && !t.cache[ip].resolved
    requires t.cache[ip].pending == [p] + if ip in s.cache then s.cache[ip].pending else []
    ensures PacketsOk(t)
    ensures Distinct(t.cache[ip].pending)
    ensures forall q :: q in t.cache[ip].pending ==> q in t.dest && t.dest[q] == Some(ip)
  {
    Unseen(s, p);
    assert ip in s.cache ==> EntryOk(s, ip);
    forall q | q in t.dest
      ensures PacketOk(t, q)
    {
      assert IsHanded(s, q) <==> IsHanded(t, q);
      if q != p {
        assert PacketOk(s, q);
      }
    }
    forall i | 0 <= i < |t.handed|
      ensures HandedOk(t, i)
    {
      assert HandedOk(s, i);
    }
  }

  lemma ResolveKeeps(s: State, p: Packet, ip: Ip)
    requires Inv(s) && Enabled(s, Resolve(p, ip))
    ensures Inv(Do(s, Resolve(p, ip)))
  {
    if ip !in s.cache {
      var u := s.(dest := s.dest[p := Some(ip)], cache := s.cache[ip := Entry(false, 0, -1, [p], 0, 0, 0)]);
      NewEntryDue(s, u, p, ip);
      WatchdogKeeps(u, ip);
      assert Do(s, Resolve(p, ip)) == Watchdog(u, ip);
    } else if s.cache[ip].resolved {
      HandAtOnce(s, Do(s, Resolve(p, ip)), p, Some(ip), ToMac(s.cache[ip].mac));
    } else {
      AddKeeps(s, Do(s, Resolve(p, ip)), p, ip);
    }
  }

  /** `arp_cache_put_unresolved`, before it calls the watchdog */
  lemma NewEntryDue(s: State, u: State, p: Packet, ip: Ip)
    requires Inv(s) && p !in s.dest && s.checking.None? && ip !in s.cache
    requires u == s.(dest := s.dest[p := Some(ip)], cache := s.cache[ip := Entry(false, 0, -1, [p], 0, 0, 0)])
    ensures Due(u, ip)
  {
    WaitPackets(s, u, p, ip);
    GivenMore(s, u, p, Some(ip));
    forall other | other in u.cache && other != ip
      ensures EntryOk(u, other)
    {
      assert EntryOk(s, other);
    }
  }

  lemma AddKeeps(s: State, t: State, p: Packet, ip: Ip)
    requires Inv(s) && p !in s.dest && s.checking.None? && ip in s.cache && !s.cache[ip].resolved
    requires t == s.(dest := s.dest[p := Some(ip)], checking := Some(ip),
                     cache := s.cache[ip := s.cache[ip].(pending := [p] + s.cache[ip].pending)])
    ensures Inv(t)
  {
    WaitPackets(s, t, p, ip);
    GivenMore(s, t, p, Some(ip));
    forall other | other in t.cache
      ensures EntryOk(t, other)
    {
      assert EntryOk(s, other);
    }
  }

  lemma CheckKeeps(s: State)
    requires Inv(s) && Enabled(s, Check)
    ensures Inv(Do(s, Check))
  {
    var ip := s.checking.value;
    var u := s.(checking := None);
    SamePackets(s, u);
    assert forall other :: Given(u, other) == Given(s, other);
    forall other | other in u.cache && other != ip
      ensures EntryOk(u, other)
    {
      assert EntryOk(s, other);
    }
    assert EntryOk(s, ip);
    if s.cache[ip].retrys == -1 {
      WatchdogKeeps(u, ip);
    } else {
      assert EntryOk(u, ip);
    }
  }

  lemma TimerKeeps(s: State, ip: Ip)
    requires Inv(s) && Enabled(s, Timer(ip))
    ensures Inv(Do(s, Timer(ip)))
  {
    var u := s.(cache := s.cache[ip := s.cache[ip].(timers := s.cache[ip].timers - 1)]);
    SamePackets(s, u);
    assert forall other :: Given(u, other) == Given(s, other);
    forall other | other in u.cache && other != ip
      ensures EntryOk(u, other)
    {
      assert EntryOk(s, other);
    }
    assert EntryOk(s, ip);
    WatchdogKeeps(u, ip);
  }

  lemma StoreKeeps(s: State, ip: Ip, mac: Mac)
    requires Inv(s) && Enabled(s, Store(ip, mac))
    ensures Inv(Do(s, Store(ip, mac)))
  {
    var t := Do(s, Store(ip, mac));
    assert forall other :: Given(t, other) == Given(s, other);
    var ps := if ip in s.cache && !s.cache[ip].resolved then s.cache[ip].pending else [];
    assert ip in s.cache ==> EntryOk(s, ip);
    forall p | p in ps
      ensures !IsHanded(s, p)
    {
      assert PacketOk(s, p) && Waits(s, p);
    }
    assert t.handed == s.handed + HandAll(ps, ToMac(mac));
    HandAllAt(ps, ToMac(mac));
    HandMore(s, t, ps, ToMac(mac));
    StorePackets(s, t, ps, ip, mac);
    forall other | other in t.cache
      ensures EntryOk(t, other)
    {
      assert other in s.cache ==> EntryOk(s, other);
    }
  }

  lemma StorePackets(s: State, t: State, ps: seq<Packet>, ip: Ip, mac: Mac)
    requires Inv(s) && Enabled(s, Store(ip, mac)) && t == Do(s, Store(ip, mac))
    requires ps == if ip in s.cache && !s.cache[ip].resolved then s.cache[ip].pending else []
    requires t.handed == s.handed + HandAll(ps, ToMac(mac)) && |HandAll(ps, ToMac(mac))| == |ps|
    requires forall i :: 0 <= i < |ps| ==> HandAll(ps, ToMac(mac))[i] == Handed(ps[i], ToMac(mac))
    requires Once(t.handed) && forall p :: IsHanded(t, p) <==> IsHanded(s, p) || p in ps
    ensures PacketsOk(t)
  {
    forall p | p in t.dest
      ensures PacketOk(t, p)
    {
      assert PacketOk(s, p);
      assert ip in s.cache ==> EntryOk(s, ip);
    }
    forall i | 0 <= i < |t.handed|
      ensures HandedOk(t, i)
    {
      assert ip in s.cache ==> EntryOk(s, ip);
      if i < |s.handed| {
        assert HandedOk(s, i);
      } else {
        assert t.handed[i] == Handed(ps[i - |s.handed|], ToMac(mac));
      }
    }
  }

  lemma StepKeeps(s: State, step: Step)
    requires Inv(s) && Enabled(s, step)
    ensures Inv(Do(s, step))
  {
    match step
    case Broadcast(p) => HandAtOnce(s, Do(s, step), p, None, ToBroadcast);
    case Resolve(p, ip) => ResolveKeeps(s, p, ip);
    case Check => CheckKeeps(s);
    case Timer(ip) => TimerKeeps(s, ip);
    case Store(ip, mac) => StoreKeeps(s, ip, mac);
  }

  // ---------------------------------------------------------------------------------------------
  // Runs

  function Start(): State {
    State(map[], map[], [], None)
  }

  /** A run; steps that are not possible in their state are left out. */
  function Run(s: State, steps: seq<Step>): State
    decreases |steps|
  {
    if steps == [] then s
    else Run(if Enabled(s, steps[0]) then Do(s, steps[0]) else s, steps[1..])
  }

  lemma {:induction false} RunKeeps(s: State, steps: seq<Step>)
    requires Inv(s)
    ensures Inv(Run(s, steps))
    decreases |steps|
  {
    if steps != [] {
      if Enabled(s, steps[0]) {
        StepKeeps(s, steps[0]);
      }
      RunKeeps(if Enabled(s, steps[0]) then Do(s, steps[0]) else s, steps[1..]);
    }
  }

  /** How often a packet was handed on. */
  function Times(h: seq<Handed>, p: Packet): nat {
    if h == [] then 0 else (if h[0].packet == p then 1 else 0) + Times(h[1..], p)
  }

  lemma {:induction false} TimesOnce(h: seq<Handed>, p: Packet)
    requires Once(h)
    ensures Times(h, p) == if exists i :: 0 <= i < |h| && h[i].packet == p then 1 else 0
  {
    if h != [] {
      TimesOnce(h[1..], p);
      assert forall i :: 0 <= i < |h| - 1 ==> h[1..][i] == h[i + 1];
      if i :| 0 <= i < |h| && h[i].packet == p {
        assert i > 0 ==> h[1..][i - 1].packet == p;
      }
    }
  }

  /** In every run, each packet given to the resolver has been handed on exactly once, or waits in the
      entry for its address; never both and never neither. While it waits and no resolve for its address is
      halfway, exactly one watchdog timer runs for the entry. */
  lemma EveryPacketOnce(steps: seq<Step>, p: Packet)
    requires p in Run(Start(), steps).dest
    ensures var s := Run(Start(), steps);
            && Times(s.handed, p) == (if Waits(s, p) then 0 else 1)
            && (Waits(s, p) && s.checking != s.dest[p] ==> s.cache[s.dest[p].value].timers == 1)
  {
    var s := Run(Start(), steps);
    RunKeeps(Start(), steps);
    TimesOnce(s.handed, p);
    assert PacketOk(s, p);
    if Waits(s, p) {
      assert EntryOk(s, s.dest[p].value);
    }
  }

  /** In every run, a packet handed on with an address carries the one address the cache holds for its
      destination. */
  lemma RightAddress(steps: seq<Step>, i: nat)
    requires i < |Run(Start(), steps).handed|
    requires Run(Start(), steps).handed[i].outcome.ToMac?
    ensures var s := Run(Start(), steps);
            && s.handed[i].packet in s.dest && s.dest[s.handed[i].packet].Some?
            && var ip := s.dest[s.handed[i].packet].value;
               ip in s.cache && s.cache[ip].resolved && s.cache[ip].mac == s.handed[i].outcome.mac
  {
    RunKeeps(Start(), steps);
    assert HandedOk(Run(Start(), steps), i);
  }

  /** The address in the first answer for `ip` that the run takes in. */
  function FirstAnswer(s: State, steps: seq<Step>, ip: Ip): Option<Mac>
    decreases |steps|
  {
    if steps == [] then None
    else if !Enabled(s, steps[0]) then FirstAnswer(s, steps[1..], ip)
    else if steps[0].Store? && steps[0].ip == ip then Some(steps[0].mac)
    else FirstAnswer(Do(s, steps[0]), steps[1..], ip)
  }

  /** The address the cache would send a packet for `ip` to. */
  function Known(s: State, ip: Ip): Option<Mac> {
    if ip in s.cache && s.cache[ip].resolved then Some(s.cache[ip].mac) else None
  }

  lemma KnownMoves(s: State, step: Step, ip: Ip)
    requires Enabled(s, step)
    ensures Known(Do(s, step), ip) ==
            if Known(s, ip).None? && step.Store? && step.ip == ip then Some(step.mac) else Known(s, ip)
  {
  }

  lemma {:induction false} KnownAfter(s: State, steps: seq<Step>, ip: Ip)
    ensures Known(Run(s, steps), ip) == if Known(s, ip).Some? then Known(s, ip) else FirstAnswer(s, steps, ip)
    decreases |steps|
  {
    hide Do, Enabled, Known;
    if steps != [] {
      if Enabled(s, steps[0]) {
        KnownMoves(s, steps[0], ip);
        KnownAfter(Do(s, steps[0]), steps[1..], ip);
      } else {
        KnownAfter(s, steps[1..], ip);
      }
    }
  }

  /** In every run the cache knows exactly the address in the first answer for `ip`, a packet for `ip` that was
      handed on with an address carries that one, and the next packet for `ip` is handed on to it at once. */
  lemma FirstAnswerCounts(steps: seq<Step>, ip: Ip)
    ensures var s, first := Run(Start(), steps), FirstAnswer(Start(), steps, ip);
            && Known(s, ip) == first
            && (forall p: Packet, mac: Mac ::
                  Handed(p, ToMac(mac)) in s.handed && p in s.dest && s.dest[p] == Some(ip) ==> first == Some(mac))
            && (forall p :: Enabled(s, Resolve(p, ip)) && first.Some? ==>
                  Do(s, Resolve(p, ip)).handed == s.handed + [Handed(p, ToMac(first.value))])
  {
    var s := Run(Start(), steps);
    KnownAfter(Start(), steps, ip);
    RunKeeps(Start(), steps);
    forall p: Packet, mac: Mac | Handed(p, ToMac(mac)) in s.handed && p in s.dest && s.dest[p] == Some(ip)
      ensures Known(s, ip) == Some(mac)
    {
      var i :| 0 <= i < |s.handed| && s.handed[i] == Handed(p, ToMac(mac));
      assert HandedOk(s, i);
    }
  }

  /** In every run, one round sends at most `ARP_RETRYS` requests, and all rounds for one address at most
      `ARP_RETRYS` for each packet given for it. */
  lemma RequestsBounded(steps: seq<Step>, ip: Ip)
    requires ip in Run(Start(), steps).cache
    ensures var s := Run(Start(), steps);
            && (!s.cache[ip].resolved ==> s.cache[ip].sent <= ARP_RETRYS)
            && s.cache[ip].asked <= ARP_RETRYS * |Given(s, ip)|
  {
    RunKeeps(Start(), steps);
    assert EntryOk(Run(Start(), steps), ip);
  }

  /** `n` timers of one entry, one after the other */
  function Timers(ip: Ip, n: nat): seq<Step> {
    if n == 0 then [] else [Timer(ip)] + Timers(ip, n - 1)
  }

  /** The first packet for an address that nothing is known of starts a round: one request is sent, one timer set. */
  lemma RoundStarts(s: State, p: Packet, ip: Ip)
    requires Enabled(s, Resolve(p, ip)) && ip !in s.cache
    ensures var t := Do(s, Resolve(p, ip));
            && ip in t.cache && !t.cache[ip].resolved && t.cache[ip].pending == [p] && t.cache[ip].retrys == 0
            && t.cache[ip].sent == t.cache[ip].asked == t.cache[ip].timers == 1
            && t.handed == s.handed && t.checking.None?
  {
  }

  /** A packet for an address whose round has ended starts another one: the resolve and its look at the count
      together put it first in line and send one more request. */
  lemma RoundRestarts(s: State, p: Packet, ip: Ip)
    requires Inv(s) && Enabled(s, Resolve(p, ip)) && ip in s.cache && !s.cache[ip].resolved
    ensures var t := Do(s, Resolve(p, ip));
            && Enabled(t, Check)
            && var e, u := s.cache[ip], Do(t, Check);
               && u.checking.None? && u.handed == s.handed && ip in u.cache && !u.cache[ip].resolved
               && u.cache[ip].pending == [p] + e.pending
               && u.cache[ip].asked == e.asked + (if e.retrys == -1 then 1 else 0)
               && u.cache[ip].retrys == (if e.retrys == -1 then 0 else e.retrys)
               && u.cache[ip].timers == 1
  {
    assert EntryOk(s, ip);
  }

  /** One timer of a round: it sends a request, or ends the round. */
  lemma TimerFires(s: State, ip: Ip)
    requires Inv(s) && ip in s.cache && !s.cache[ip].resolved && s.cache[ip].retrys >= 0
    ensures Enabled(s, Timer(ip)) && s.cache[ip].retrys < ARP_RETRYS
    ensures var e, t := s.cache[ip], Do(s, Timer(ip));
            && ip in t.cache && !t.cache[ip].resolved
            && if e.retrys + 1 < ARP_RETRYS
               then && t.cache[ip].retrys == e.retrys + 1 && t.cache[ip].pending == e.pending && t.handed == s.handed
                    && t.cache[ip].asked == e.asked + 1 && t.cache[ip].timers == 1
               else && t.cache[ip].asked == e.asked
                    && t.cache[ip].pending == [] && t.cache[ip].retrys == -1 && t.cache[ip].timers == 0
                    && t.handed == s.handed + HandAll(e.pending, UnknownHost)
  {
    assert EntryOk(s, ip);
  }

  /** Without an answer a round ends: after the timers that are left, every packet that waited has been
      handed on as undeliverable, no timer runs, and the entry takes a new round. */
  lemma {:induction false} RoundEnds(s: State, ip: Ip, n: nat)
    requires Inv(s) && ip in s.cache && !s.cache[ip].resolved && s.cache[ip].retrys >= 0
    requires n == ARP_RETRYS - s.cache[ip].retrys
    ensures var t := Run(s, Timers(ip, n));
            && Inv(t) && ip in t.cache
            && t.cache[ip].pending == [] && t.cache[ip].retrys == -1 && t.cache[ip].timers == 0
            && t.handed == s.handed + HandAll(s.cache[ip].pending, UnknownHost)
    decreases n
  {
    hide Inv, Do, HandAll, Enabled;
    TimerFires(s, ip);
    var t := Do(s, Timer(ip));
    StepKeeps(s, Timer(ip));
    assert Timers(ip, n)[1..] == Timers(ip, n - 1);
    assert Run(s, Timers(ip, n)) == Run(t, Timers(ip, n - 1));
    if n > 1 {
      RoundEnds(t, ip, n - 1);
    } else {
      assert Run(t, Timers(ip, 0)) == t;
    }
  }

  /** An answer hands on the packets that wait for it, from the last given to the first, and nothing else. */
  lemma AnswerDelivers(s: State, ip: Ip, mac: Mac)
    requires Inv(s) && Enabled(s, Store(ip, mac)) && ip in s.cache && !s.cache[ip].resolved
    ensures var ps, t := s.cache[ip].pending, Do(s, Store(ip, mac));
            && Inv(t) && (forall p :: p in t.dest && t.dest[p] == Some(ip) ==> !Waits(t, p))
            && |t.handed| == |s.handed| + |ps| && t.handed[..|s.handed|] == s.handed
            && (forall i :: 0 <= i < |ps| ==> t.handed[|s.handed| + i] == Handed(ps[i], ToMac(mac)))
  {
    StepKeeps(s, Store(ip, mac));
    HandAllAt(s.cache[ip].pending, ToMac(mac));
  }
}
