/** The timers as they are stored: an array of pointers to the active ones, compacted at every
    tick, and a list of free ones threaded through their argument field. */
module TimerWheel {
  import opened TimerSpec

  /** qt_arg: the argument of the callback, or the next free timer. */
  datatype Arg = Data(value: int) | Link(next: Node?)

  class Node {
    var id: int
    var period: int
    var nextcall: int
    var times: nat
    var call: nat
    var arg: Arg
    ghost var tag: nat
    ghost var place: int     // its index in the active array, or minus its position in the free list

    /** malloc, and qt_arg = NULL */
    constructor ()
      ensures arg == Link(null)
    {
      arg := Link(null);
    }

    ghost function View(): Timer
      requires arg.Data?
      reads `tag, `id, `period, `nextcall, `times, `call, `arg
    {
      Timer(tag, id, period, nextcall, times, call, arg.value)
    }
  }

  /** A timer with calls left is called if it is due. */
  method Serve(n: Node, now: int) returns (called: bool)
    requires n.arg.Data? && n.times != 0
    modifies n`nextcall, n`times
    ensures called == Due(old(n.View()), now) && n.View() == Advance(old(n.View()), now)
  {
    called := false;
    if now >= n.nextcall {
      called := true;
      n.nextcall := n.nextcall + n.period;
      if n.times > 0 {
        n.times := n.times - 1;
      }
    }
  }

  const ALLOCSTEP: nat := 4

  class Wheel {
    var head: array<Node?>     // its length is qt_size
    var free: Node?
    var now: int
    var active: nat
    ghost var nodes: set<Node>
    ghost var idle: nat            // how many timers are free
    ghost var slot: map<int, Node> // the free timers by their place
    ghost var added: nat           // how many timers were ever added

    /** The entries from lo up to hi are timers in their places. */
    ghost predicate Placed(lo: nat, hi: nat)
      reads `head, head, `nodes, nodes`place, nodes`arg
    {
      hi <= head.Length &&
      forall k :: lo <= k < hi ==>
        head[k] != null && head[k] in nodes && head[k].place == k && head[k].arg.Data?
    }

    /** Where a timer is: among the entries below j or from i on, or in the free list, followed
        there by the one whose place is next; the last has place -1. */
    ghost predicate Somewhere(n: Node, j: nat, i: nat, all: nat)
      requires j <= i <= all <= head.Length
      reads `head, head, `idle, `slot, `nodes, n`place, n`arg, nodes`place
    {
      if n.place >= 0 then (n.place < j || i <= n.place < all) && head[n.place] == n
      else
        && 0 - n.place <= idle && n.place in slot && slot[n.place] == n
        && n.arg.Link?
        && (if n.place == -1 then n.arg.next == null
            else n.arg.next != null && n.arg.next in nodes && n.arg.next.place == n.place + 1)
    }

    /** The list starts at the free timer with the last place. */
    ghost predicate Threaded()
      reads `free, `idle, `nodes, nodes`place
    {
      if idle == 0 then free == null else free != null && free in nodes && free.place == 0 - idle
    }

    /** In the middle of a compaction that has looked at i of all entries and kept j. */
    ghost predicate Mid(j: nat, i: nat, all: nat)
      reads `head, head, `free, `idle, `slot, `nodes, nodes`place, nodes`arg
    {
      && j <= i <= all <= head.Length
      && Placed(0, j) && Placed(i, all) && Threaded()
      && (forall n {:trigger Somewhere(n, j, i, all)} :: n in nodes ==> Somewhere(n, j, i, all))
    }

    ghost predicate Valid()
      reads `active, `head, head, `free, `idle, `slot, `nodes, nodes`place, nodes`arg
    {
      Mid(active, active, active)
    }

    /** The active timers, in order. */
    ghost function Views(lo: nat, hi: nat): (r: seq<Timer>)
      requires lo <= hi && Placed(lo, hi)
      reads `head, head, `nodes, nodes
      ensures |r| == hi - lo
      decreases hi - lo
    {
      if lo == hi then [] else Views(lo, hi - 1) + [head[hi - 1].View()]
    }

    lemma {:induction false} ViewsAt(lo: nat, hi: nat)
      requires lo <= hi && Placed(lo, hi)
      ensures forall k :: lo <= k < hi ==> head[k].View() == Views(lo, hi)[k - lo]
      decreases hi - lo
    {
      if lo < hi { ViewsAt(lo, hi - 1); }
    }

    /** The wheel is in this state, its history aside. */
    ghost predicate Shows(s: State)
      requires Valid()
      reads `now, `added, `active, `head, head, `free, `idle, `slot, `nodes, nodes
    {
      now == s.now && added == |s.births| && Views(0, active) == s.timers
    }

    constructor (now: int)
      ensures Valid() && Shows(Run(now, [])) && idle == 0
    {
      head, free, this.now, active := new Node?[0], null, now, 0;
      nodes, idle, slot, added := {}, 0, map[], 0;
    }

    // ----- the tick -----

    /** A timer without calls left goes to the free list. */
    method Retire(n: Node, ghost j: nat, i: nat, ghost all: nat)
      requires Mid(j, i, all) && i < all && head[i] == n && n.times == 0
      modifies `free, `idle, `slot, n`arg, n`place
      ensures Mid(j, i + 1, all) && idle == old(idle) + 1
      ensures forall k :: 0 <= k < j || i < k < all ==> head[k].View() == old(head[k].View())
    {
      assert Somewhere(n, j, i, all);
      n.arg := Link(free);
      free := n;
      idle := idle + 1;
      n.place := 0 - idle;
      slot := slot[n.place := n];
      forall m | m in nodes
        ensures Somewhere(m, j, i + 1, all)
      {
        assert old(Somewhere(m, j, i, all));
      }
    }

    method Shift(n: Node, j: nat, i: nat)
      requires j <= i < head.Length && head[i] == n
      modifies head, n`place
      ensures head[j] == n && n.place == j
      ensures forall k :: 0 <= k < head.Length && k != j ==> head[k] == old(head[k])
    {
      if i != j {
        head[j] := head[i];
      }
      n.place := j;
    }

    /** A timer with calls left moves up to entry j. */
    method Keep(n: Node, j: nat, i: nat, ghost all: nat)
      requires Mid(j, i, all) && i < all && head[i] == n
      modifies head, n`place
      ensures Mid(j + 1, i + 1, all) && head[j] == n && n.View() == old(n.View())
      ensures forall k :: 0 <= k < j || i < k < all ==> head[k].View() == old(head[k].View())
    {
      assert Somewhere(n, j, i, all);
      Shift(n, j, i);
      forall m | m in nodes
        ensures Somewhere(m, j + 1, i + 1, all)
      {
        if m != n {
          assert old(Somewhere(m, j, i, all)) && m.place == old(m.place);
          if m.place >= 0 {
            assert m.place != i && m.place != j;
          } else if m.place != -1 {
            assert m.arg.next != n;
          }
        }
      }
    }

    /** The entries not yet looked at are the timers they were, and those kept are the
        survivors of the others. */
    ghost predicate Compacted(was: seq<Timer>, j: nat, i: nat)
      requires Mid(j, i, |was|)
      reads `now, `head, head, `free, `idle, `slot, `nodes, nodes
    {
      && Views(0, j) == Survivors(was[..i], now)
      && forall k :: i <= k < |was| ==> head[k].View() == was[k]
    }

    lemma SurvivorsMore(ts: seq<Timer>, i: nat, now: int)
      requires i < |ts|
      ensures Survivors(ts[..i + 1], now)
           == Survivors(ts[..i], now) + if ts[i].times == 0 then [] else [Advance(ts[i], now)]
      ensures Calls(ts[..i + 1], now)
           == Calls(ts[..i], now) + if Due(ts[i], now) then [Call(ts[i].tag, now, ts[i].call, ts[i].arg)] else []
    {
      assert ts[..i + 1][..i] == ts[..i];
    }

    twostate lemma {:induction false} ViewsSame(new lo: nat, new hi: nat)
      requires lo <= hi && old(Placed(lo, hi)) && Placed(lo, hi)
      requires forall k :: lo <= k < hi ==> head[k].View() == old(head[k].View())
      ensures Views(lo, hi) == old(Views(lo, hi))
      decreases hi - lo
    {
      if lo < hi { ViewsSame(lo, hi - 1); }
    }

    /** One round of the compaction: the timer goes, */
    method RoundGone(n: Node, j: nat, i: nat, ghost was: seq<Timer>)
      requires i < |was| && Mid(j, i, |was|) && Compacted(was, j, i) && head[i] == n && n.times == 0
      modifies `free, `idle, `slot, n`arg, n`place
      ensures Mid(j, i + 1, |was|) && Compacted(was, j, i + 1) && idle == old(idle) + 1
    {
      SurvivorsMore(was, i, now);
      Retire(n, j, i, |was|);
      ViewsSame(0, j);
    }

    /** or it is served and kept. */
    method RoundKept(n: Node, j: nat, i: nat, ghost was: seq<Timer>) returns (called: bool)
      requires i < |was| && Mid(j, i, |was|) && Compacted(was, j, i) && head[i] == n && n.times != 0
      modifies head, n`place, n`nextcall, n`times
      ensures Mid(j + 1, i + 1, |was|) && Compacted(was, j + 1, i + 1)
      ensures called == Due(was[i], now)
    {
      SurvivorsMore(was, i, now);
      called := Serve(n, now);
      Keep(n, j, i, |was|);
      ViewsSame(0, j);
    }

    method Round(n: Node, j: nat, i: nat, ghost was: seq<Timer>) returns (next: nat, ghost calls: seq<Call>)
      requires i < |was| && Mid(j, i, |was|) && Compacted(was, j, i) && head[i] == n
      modifies `free, `idle, `slot, head, n`arg, n`place, n`nextcall, n`times
      ensures Mid(next, i + 1, |was|) && Compacted(was, next, i + 1)
      ensures idle + next == old(idle) + j + 1
      ensures Calls(was[..i], now) + calls == Calls(was[..i + 1], now)
    {
      SurvivorsMore(was, i, now);
      assert n.View() == was[i];
      next, calls := j, [];
      if n.times == 0 {
        RoundGone(n, j, i, was);
      } else {
        var called := RoundKept(n, j, i, was);
        next, calls := j + 1, if called then [Call(was[i].tag, now, was[i].call, was[i].arg)] else [];
      }
    }

    /** sig_alarm. The callbacks that it makes, in order, are `calls`. */
    method Tick(ghost s: State) returns (ghost calls: seq<Call>)
      requires Valid() && Shows(s)
      modifies `now, `active, `free, `idle, `slot, head, nodes`arg, nodes`place, nodes`nextcall, nodes`times
      ensures Valid() && Shows(Step(s, Event.Tick)) && Step(s, Event.Tick).log == s.log + calls
      ensures idle + active == old(idle) + old(active)
    {
      now := now + 1;
      calls := Compact(s.timers);
    }

    method Compact(ghost was: seq<Timer>) returns (ghost calls: seq<Call>)
      requires Valid() && was == Views(0, active)
      modifies `active, `free, `idle, `slot, head, nodes`arg, nodes`place, nodes`nextcall, nodes`times
      ensures Valid() && Views(0, active) == Survivors(was, now) && calls == Calls(was, now)
      ensures idle + active == old(idle) + old(active)
    {
      var j;
      j, calls := Sweep(active, was);
      active := j;
    }

    /** The loop: survivors move up in order, exhausted timers go to the free list. */
    method Sweep(all: nat, ghost was: seq<Timer>) returns (j: nat, ghost calls: seq<Call>)
      requires Mid(all, all, all) && was == Views(0, all)
      modifies `free, `idle, `slot, head, nodes`arg, nodes`place, nodes`nextcall, nodes`times
      ensures Mid(j, j, j) && Views(0, j) == Survivors(was, now) && calls == Calls(was, now)
      ensures idle + j == old(idle) + all
    {
      j, calls := 0, [];
      Begin(was);
      for i := 0 to all
        invariant |was| == all && Mid(j, i, all) && Compacted(was, j, i)
        invariant idle + j == old(idle) + i && calls == Calls(was[..i], now)
      {
        ghost var more;
        j, more := Round(head[i], j, i, was);
        calls := calls + more;
      }
      End(was, j);
    }

    lemma Begin(was: seq<Timer>)
      requires Mid(|was|, |was|, |was|) && was == Views(0, |was|)
      ensures Mid(0, 0, |was|) && Compacted(was, 0, 0) && Calls(was[..0], now) == []
    {
      Started(|was|);
      ViewsAt(0, |was|);
      assert was[..0] == [];
    }

    lemma End(was: seq<Timer>, j: nat)
      requires Mid(j, |was|, |was|) && Compacted(was, j, |was|)
      ensures Mid(j, j, j) && Views(0, j) == Survivors(was, now) && was[..|was|] == was
    {
      Settled(j, |was|);
      assert was[..|was|] == was;
    }

    lemma Started(all: nat)
      requires Mid(all, all, all)
      ensures Mid(0, 0, all)
    {
      forall n | n in nodes
        ensures Somewhere(n, 0, 0, all)
      {
        assert Somewhere(n, all, all, all);
      }
    }

    lemma Settled(j: nat, all: nat)
      requires Mid(j, all, all)
      ensures Mid(j, j, j)
    {
      forall n | n in nodes
        ensures Somewhere(n, j, j, j)
      {
        assert Somewhere(n, j, all, all);
      }
    }

    // ----- adding -----

    /** realloc of the array, when it is full. */
    method Grow()
      requires Valid() && active == head.Length
      modifies `head
      ensures Valid() && fresh(head) && active < head.Length && Views(0, active) == old(Views(0, active))
    {
      var larger := new Node?[head.Length + ALLOCSTEP](_ => null);
      for k := 0 to active
        invariant head == old(head) && forall x :: 0 <= x < k ==> larger[x] == head[x]
      {
        larger[k] := head[k];
      }
      head := larger;
      forall n | n in nodes
        ensures Somewhere(n, active, active, active)
      {
        assert old(Somewhere(n, active, active, active));
      }
      ViewsSame(0, active);
    }

    /** malloc of a timer, when no free one is left. */
    method Provide() returns (made: bool)
      requires Valid()
      modifies `free, `idle, `slot, `nodes
      ensures Valid() && free != null && Views(0, active) == old(Views(0, active))
      ensures made <==> old(idle) == 0
      ensures if made then fresh(free) && nodes == old(nodes) + {free} && idle == 1
              else nodes == old(nodes) && idle == old(idle)
    {
      made := free == null;
      if made {
        free := new Node();
        free.place := 0 - 1;
        idle, slot, nodes := 1, slot[free.place := free], nodes + {free};
        forall n | n in nodes
          ensures Somewhere(n, active, active, active)
        {
          assert n in old(nodes) ==> old(Somewhere(n, active, active, active));
        }
        ViewsSame(0, active);
      }
    }

    /** The first free timer becomes the last active one. */
    method Take(arg: int) returns (n: Node)
      requires Valid() && free != null && active < head.Length
      modifies `active, `free, `idle, head, free`arg, free`place
      ensures Valid() && n == old(free) && active == old(active) + 1 && head[old(active)] == n
      ensures idle == old(idle) - 1 && n.arg == Data(arg) && Views(0, old(active)) == old(Views(0, active))
    {
      var k := active;
      n := free;
      assert Somewhere(n, k, k, k);
      head[k] := n;
      free := n.arg.next;
      n.arg, n.place := Data(arg), k;
      active, idle := k + 1, idle - 1;
      forall m | m in nodes
        ensures Somewhere(m, k + 1, k + 1, k + 1)
      {
        if m != n { assert old(Somewhere(m, active, active, active)); }
      }
      ViewsSame(0, k);
    }

    /** The other fields of a timer that has just been taken. */
    method Fill(n: Node, period: int, times: nat, call: nat)
      requires Valid() && active > 0 && added > 0 && head[active - 1] == n
      modifies n`id, n`period, n`nextcall, n`times, n`call, n`tag
      ensures Valid()
      ensures Views(0, active)
           == old(Views(0, active - 1)) + [Timer(added - 1, TIMERID, period, now + period, times, call, n.arg.value)]
    {
      n.id, n.period, n.nextcall, n.times, n.call := TIMERID, period, now + period, times, call;
      n.tag := added - 1;
      assert Valid();
      forall k: nat | k < active - 1
        ensures head[k].View() == old(head[k].View())
      {
        assert head[k].place == k && n.place == active - 1;
      }
      ViewsSame(0, active - 1);
    }

    /** qtimer_add, the allocations succeeding. A new timer is allocated only when no free one
        is left. */
    method Add(period: int, times: int, call: nat, arg: int, ghost s: State)
      returns (id: int, made: bool, ghost n: Node?)
      requires Valid() && Shows(s)
      modifies this, head, nodes
      ensures Valid() && Shows(Step(s, Event.Add(period, times, call, arg)))
      ensures id == if Acceptable(Event.Add(period, times, call, arg)) then TIMERID else FOREVER
      ensures made ==> old(idle) == 0
      ensures id == TIMERID ==> (made <==> old(idle) == 0)
      ensures if made then n != null && fresh(n) && nodes == old(nodes) + {n} else nodes == old(nodes)
      ensures idle + active == old(idle) + old(active) + if made then 1 else 0
    {
      n := null;
      id, made := FOREVER, false;
      if period > 0 && call != 0 && times >= 0 {
        if active >= head.Length {
          Grow();
        }
        made, n := Insert(period, if times == 0 then FOREVER else times, call, arg);
        id := TIMERID;
      }
    }

    method Enlist(period: int, times: nat, call: nat, arg: int)
      requires Valid() && free != null && active < head.Length && added > 0
      modifies `active, `free, `idle, head, free
      ensures Valid() && idle == old(idle) - 1 && active == old(active) + 1
      ensures Views(0, active)
           == old(Views(0, active)) + [Timer(added - 1, TIMERID, period, now + period, times, call, arg)]
    {
      var n := Take(arg);
      Fill(n, period, times, call);
    }

    method Insert(period: int, times: nat, call: nat, arg: int) returns (made: bool, ghost taken: Node)
      requires Valid() && active < head.Length
      modifies `active, `free, `idle, `slot, `nodes, `added, head, nodes
      ensures Valid() && added == old(added) + 1 && (made <==> old(idle) == 0)
      ensures if made then fresh(taken) && nodes == old(nodes) + {taken} else nodes == old(nodes)
      ensures idle + active == old(idle) + old(active) + if made then 1 else 0
      ensures Views(0, active)
           == old(Views(0, active)) + [Timer(old(added), TIMERID, period, now + period, times, call, arg)]
    {
      added := added + 1;
      made := Provide();
      taken := free;
      Enlist(period, times, call, arg);
    }

    /** qtimer_del */
    method Del(id: int, ghost s: State)
      requires Valid() && Shows(s)
      modifies nodes`times
      ensures Valid() && Shows(Step(s, Event.Del(id)))
    {
      ViewsAt(0, active);
      var index := 0;
      while index < active && head[index].id != id
        invariant index <= active && forall k :: 0 <= k < index ==> s.timers[k].id != id
      {
        index := index + 1;
      }
      FirstIs(s.timers, id, index);
      if index < active {
        Silence(index, s.timers);
      }
    }

    method Silence(index: nat, ghost ts: seq<Timer>)
      requires Valid() && index < active && ts == Views(0, active)
      modifies nodes`times
      ensures Valid() && Views(0, active) == ts[index := ts[index].(times := 0)]
    {
      ViewsAt(0, active);
      assert forall k :: 0 <= k < active && k != index ==> head[k].place != head[index].place;
      head[index].times := 0;
      ViewsAre(ts[index := ts[index].(times := 0)]);
    }

    lemma ViewsAre(ts: seq<Timer>)
      requires Valid() && |ts| == active && forall k :: 0 <= k < active ==> head[k].View() == ts[k]
      ensures Views(0, active) == ts
    {
      ViewsAt(0, active);
    }

    lemma FirstIs(ts: seq<Timer>, id: int, index: nat)
      requires index <= |ts| && (forall k :: 0 <= k < index ==> ts[k].id != id)
      requires index < |ts| ==> ts[index].id == id
      ensures FirstWith(ts, id) == index
    {
    }
  }
}
