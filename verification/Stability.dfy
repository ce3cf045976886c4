/** How long an address stays with its port, in a run of the whole switch. */
module Stability {
  import opened KeyPacking
  import opened Learning
  import opened Frames
  import opened SwitchSpec
  import opened SwitchSafety
  import opened Maybes

  /** The states of a run, from the first to the last. */
  ghost function History(s: State, cs: seq<Command>): (h: seq<State>)
    requires Inv(s) && AllAllowed(s, cs)
    ensures |h| == |cs| + 1 && h[0] == s && h[|cs|] == Run(s, cs)
    decreases |cs|
  {
    if cs == [] then [s]
    else
      StepKeeps(s, cs[0]);
      [s] + History(Step(s, cs[0]), cs[1..])
  }

  lemma {:induction false} HistoryStep(s: State, cs: seq<Command>, i: nat)
    requires Inv(s) && AllAllowed(s, cs) && i < |cs|
    ensures var h := History(s, cs);
      Inv(h[i]) && Allowed(h[i], cs[i]) && h[i + 1] == Step(h[i], cs[i])
    decreases i
  {
    StepKeeps(s, cs[0]);
    if i > 0 { HistoryStep(Step(s, cs[0]), cs[1..], i - 1); }
  }

  /** The command is a packet by which port p is seen to own the key. */
  predicate Sights(s: State, c: Command, k: nat)
    requires Inv(s) && Allowed(s, c)
  {
    && c.Packet? && !s.hub && !IsBroadcast(Source(c.frame))
    && var v := Ingress(s, c.p, c.frame); v != None && ExtMac(Source(c.frame), v.value) == k
  }

  /** Whatever the command, a key that is in the table before and after has been refreshed by
      a sighting or not been touched, and time has not run backwards. */
  lemma StepRefreshes(s: State, c: Command, k: nat)
    requires Inv(s) && Allowed(s, c) && k in s.learned && k in Step(s, c).learned
    ensures Step(s, c).learned[k]
         == if Sights(s, c, k) then Refresh(s.learned[k], c.p, s.now, s.minPersistence) else s.learned[k]
    ensures Step(s, c).now >= s.now
  {
    if c.Packet? {
      PacketRefreshes(s, c.p, c.frame, k);
    } else {
      OthersOnlyRemove(s, c);
    }
  }

  lemma PacketRefreshes(s: State, p: nat, f: Frame, k: nat)
    requires Inv(s) && Active(s, p) && |f| >= MINFRAME && k in s.learned
    ensures var t := HandleIn(s, p, f).state;
      && t.now == s.now && k in t.learned
      && t.learned[k] == if Sights(s, Packet(p, f), k) then Refresh(s.learned[k], p, s.now, s.minPersistence)
                         else s.learned[k]
  {
  }

  /** A command other than a packet removes addresses at most. */
  lemma OthersOnlyRemove(s: State, c: Command)
    requires Inv(s) && Allowed(s, c) && !c.Packet?
    ensures Step(s, c).now == s.now + (if c.Tick? then 1 else 0)
    ensures forall k :: k in Step(s, c).learned ==> k in s.learned && Step(s, c).learned[k] == s.learned[k]
  {
    match c
    case CreatePort(n) => if n >= 0 { ReservingKeepsLearned(s, n); }
    case CreateAuto => ReservingKeepsLearned(s, 0);
    case Attach(portno, ep, user, permitted) => AttachingKeepsLearned(s, portno, ep, user, permitted);
    case PortVlan(_, _) => FlushingRemoves(s, c);
    case DelFromVlan(_, _) => FlushingRemoves(s, c);
    case Close(_, _) => FlushingRemoves(s, c);
    case _ =>
  }

  lemma FlushingRemoves(s: State, c: Command)
    requires Inv(s) && Allowed(s, c) && (c.PortVlan? || c.DelFromVlan? || c.Close?)
    ensures Step(s, c).now == s.now
    ensures forall k :: k in Step(s, c).learned ==> k in s.learned && Step(s, c).learned[k] == s.learned[k]
  {
  }

  lemma ReservingKeepsLearned(s: State, portno: nat)
    requires Resolvable(s, portno)
    ensures var t := PortReserve(s, portno).state; t.now == s.now && t.learned == s.learned
  {
  }

  lemma AttachingKeepsLearned(s: State, portno: nat, ep: Endpoint, user: nat, permitted: bool)
    requires Resolvable(s, portno)
    ensures var t := SetupEp(s, portno, ep, user, permitted).state; t.now == s.now && t.learned == s.learned
  {
  }

  /** Two changes of port, with the address in the table all the while, are further apart
      than the persistence in force at the second one. */
  lemma ChangesApartInRun(s: State, cs: seq<Command>, k: nat, i: nat, j: nat)
    requires Inv(s) && AllAllowed(s, cs) && i < j < |cs|
    requires forall n :: i <= n <= j + 1 ==> k in History(s, cs)[n].learned
    requires var h := History(s, cs);
      && h[i + 1].learned[k].port != h[i].learned[k].port
      && h[j + 1].learned[k].port != h[j].learned[k].port
    ensures var h := History(s, cs); h[j].now - h[i].now > h[j].minPersistence
  {
    var h := History(s, cs);
    HistoryStep(s, cs, i);
    StepRefreshes(h[i], cs[i], k);
    StampGrowsInRun(s, cs, k, i + 1, j, h[i].now);
    HistoryStep(s, cs, j);
    StepRefreshes(h[j], cs[j], k);
  }

  lemma {:induction false} StampGrowsInRun(s: State, cs: seq<Command>, k: nat, i: nat, j: nat, time: int)
    requires Inv(s) && AllAllowed(s, cs) && i <= j <= |cs|
    requires forall n :: i <= n <= j ==> k in History(s, cs)[n].learned
    requires History(s, cs)[i].learned[k].lastSeen >= time && History(s, cs)[i].now >= time
    ensures History(s, cs)[j].learned[k].lastSeen >= time && History(s, cs)[j].now >= time
    decreases j
  {
    if i < j {
      var h := History(s, cs);
      StampGrowsInRun(s, cs, k, i, j - 1, time);
      HistoryStep(s, cs, j - 1);
      StepRefreshes(h[j - 1], cs[j - 1], k);
    }
  }

  /** The address moves in a step exactly when another port sends from it after the owner
      has been silent for longer than the persistence. */
  lemma MovesWhen(s: State, c: Command, k: nat)
    requires Inv(s) && Allowed(s, c) && k in s.learned && k in Step(s, c).learned
    ensures Step(s, c).learned[k].port != s.learned[k].port
       <==> Sights(s, c, k) && c.p != s.learned[k].port && s.now - s.learned[k].lastSeen > s.minPersistence
  {
    StepRefreshes(s, c, k);
  }

  /** An address is in the table and was last seen within the persistence. */
  predicate Heard(s: State, k: nat) {
    k in s.learned && s.now - s.learned[k].lastSeen <= s.minPersistence
  }

  /** An owner that is heard often enough keeps its address: if at each step the address was
      last seen within the persistence, the port is the same at the end. */
  lemma {:induction false} OwnerKeeps(s: State, cs: seq<Command>, k: nat, i: nat, j: nat)
    requires Inv(s) && AllAllowed(s, cs) && i <= j <= |cs|
    requires forall n :: i <= n < j ==> Heard(History(s, cs)[n], k)
    requires forall n :: i <= n <= j ==> k in History(s, cs)[n].learned
    ensures History(s, cs)[j].learned[k].port == History(s, cs)[i].learned[k].port
    decreases j
  {
    if i < j {
      var h := History(s, cs);
      OwnerKeeps(s, cs, k, i, j - 1);
      HistoryStep(s, cs, j - 1);
      assert Heard(h[j - 1], k);
      MovesWhen(h[j - 1], cs[j - 1], k);
    }
  }
}
