/** The timing wheel of timer.c on the heap: 128 intrusive lists, a wrapping tick
    counter, cascading walks, and callbacks that start and stop timers while a walk
    is under way. Every operation is proved to be a step of the value model.
 */
module TimerWheel {
  import opened Seqs
  import opened HList
  import opened WheelMath
  import opened TimerLog
  import opened WheelModel
  import opened WheelScripts

  class Wheel {
    var ticks: nat
    var processed: bool    // the timer thread is between its unlock and ++ticks
    const lists: Lists<nat>
    ghost var view: View<Timer>

    /** The lists hold exactly the timers of `due`, each in its slot, and their words
        are its times, wrapped. */
    ghost predicate Stored(due: map<Timer, nat>, place: map<Timer, nat>)
      reads lists, lists.heads, lists.nodes
    {
      && lists.Valid() && |lists.heads| == SLOTS
      && place.Keys == due.Keys && due.Keys <= lists.nodes
      && (forall t :: t in lists.nodes ==> (t.Linked() <==> t in due))
      && (forall t :: t in due ==> Sits(t, due[t], place[t]))
    }

    /** t holds the wrapped time e and is on the list of the slot. */
    ghost predicate Sits(t: Timer, e: nat, slot: nat)
      requires |lists.heads| == SLOTS
      reads t`item, t`owner
    {
      t.item == Word(e) && slot < SLOTS && t.owner == lists.heads[slot]
    }

    ghost predicate Represents()
      reads this, lists, lists.heads, lists.nodes
    {
      Stored(view.due, view.place) && ticks == Word(view.now) && processed == view.done
    }

    /** What the walk in progress has left is the tail of the list it is walking. */
    ghost predicate OnTrack()
      reads this, lists.heads
    {
      && |lists.heads| == SLOTS
      && (view.pending != [] ==>
            0 < view.floor <= LEVELS && Suffix(view.pending, lists.heads[SlotFor(view.floor - 1, view.now)].chain))
    }

    ghost function WalkedSlot(): (index: nat)
      reads this
      ensures index < SLOTS
    {
      if 0 < view.floor <= LEVELS then SlotFor(view.floor - 1, view.now) else 0
    }

    ghost predicate Valid()
      reads this, lists, lists.heads, lists.nodes
    {
      Represents() && OnTrack() && Good(view)
    }

    constructor ()
      ensures Valid() && Initial(view)
      ensures fresh(lists) && fresh(lists.heads) && lists.nodes == {}
    {
      ticks, processed := 0, false;
      lists := new Lists<nat>(SLOTS);
      view := View(0, 0, false, map[], map[], [], map[], map[], [], []);
    }

    /** create_timer: a node on no list. */
    method CreateTimer() returns (t: Timer)
      requires Valid()
      modifies lists`nodes
      ensures Valid() && fresh(t) && lists.nodes == old(lists.nodes) + {t} && t !in view.due
    {
      hide Good, Word, Lists.Valid;
      t := lists.Create(0);
    }

    /** The choice of add_timer: level and slot come from wrapped words only, and are
        those of the absolute expiry e and tick n behind them. */
    static method Choose(expires: nat, ticks: nat, ghost e: nat, ghost n: nat) returns (index: nat)
      requires n <= e < n + WORD && ticks == Word(n) && expires == Word(e)
      ensures index == SlotFor(LevelFor(e - n), e) < SLOTS
    {
      var offset := Word(expires - ticks);
      WrappedOffset(e, n);
      var level := LevelFor(offset);
      index := SlotFor(level, expires);
      Wrapped(level, e);
    }

    lemma SitsThere(t: Timer, e: nat, slot: nat)
      requires |lists.heads| == SLOTS && slot < SLOTS && t.item == Word(e) && t.owner == lists.heads[slot]
      ensures Sits(t, e, slot)
    {
    }

    /** The list operation of add_timer. */
    method Link(t: Timer, index: nat, ghost e: nat, ghost due: map<Timer, nat>, ghost place: map<Timer, nat>)
      requires Stored(due, place) && t in lists.nodes && t !in due && index < SLOTS && t.item == Word(e)
      modifies lists.heads, lists.nodes`next, lists.nodes`pprevious, t`owner
      ensures Stored(due[t := e], place[t := index])
      ensures forall h :: h in lists.heads ==> Suffix(old(h.chain), h.chain)
    {
      hide Word, Lists.Valid, Suffix, Wheel.Sits;
      var head := lists.heads[index];
      forall h | h in lists.heads
        ensures Suffix(h.chain, [t] + h.chain) && Suffix(h.chain, h.chain)
      {
        SuffixOfLonger(t, h.chain);
      }
      lists.Add(head, t);
      SitsThere(t, e, index);
    }

    /** start_timer_internal, on the heap. */
    method Arm(t: Timer, ahead: nat, ghost n: nat, ghost due: map<Timer, nat>, ghost place: map<Timer, nat>)
      requires Stored(due, place) && t in lists.nodes && t !in due && ahead < WORD && ticks == Word(n)
      modifies lists.heads, lists.nodes
      ensures Stored(due[t := n + ahead], place[t := SlotFor(LevelFor(ahead), n + ahead)])
      ensures forall h :: h in lists.heads ==> Suffix(old(h.chain), h.chain)
    {
      hide SlotFor, LevelFor, Word, Lists.Valid, Suffix;
      t.item := Word(ahead + ticks);
      WrappedSum(ahead, n);
      var index := Choose(t.item, ticks, n + ahead, n);
      Link(t, index, n + ahead, due, place);
    }

    /** start_timer_internal. A timer is started only while unarmed; once the walks
        of the current tick have begun it must be for a later tick. */
    method StartTimer(t: Timer, ahead: nat)
      requires Valid() && t in lists.nodes && Enabled(view, Start(t, ahead))
      modifies this`view, lists.heads, lists.nodes
      ensures Valid() && view == Apply(old(view), Start(t, ahead))
      ensures view.due == old(view.due)[t := view.now + ahead] && view.now == old(view.now)
      ensures view.log == old(view.log) + [Started(t, view.now + ahead)]
      ensures view.delay == old(view.delay)[t := ahead] && view.moves == old(view.moves)[t := 0]
    {
      hide Good, SlotFor, LevelFor, Word, Stored, Suffix;
      StepKept(view, Start(t, ahead));
      ghost var v, w, e := view, Apply(view, Start(t, ahead)), view.now + ahead;
      assert w == v.(due := v.due[t := e], place := v.place[t := SlotFor(LevelFor(ahead), e)],
                     delay := w.delay, moves := w.moves, log := w.log, times := w.times);
      ghost var chain := lists.heads[WalkedSlot()].chain;
      Arm(t, ahead, v.now, v.due, v.place);
      if v.pending != [] {
        SuffixTrans(v.pending, chain, lists.heads[WalkedSlot()].chain);
      }
      view := w;
    }
  
    /** The list operation of stop_timer and of a walk. */
    method Disarm(t: Timer, ghost due: map<Timer, nat>, ghost place: map<Timer, nat>)
      requires Stored(due, place) && t in due
      modifies lists.heads, lists.nodes`next, lists.nodes`pprevious
      ensures Stored(due - {t}, place - {t})
      ensures forall h :: h in lists.heads ==> h.chain == Without(old(h.chain), t)
    {
      hide Word, Without, Lists.Valid;
      lists.Remove(t);
    }

    /** The test of stop_timer: it recognises armed timers by their pointers. */
    method IsArmed(t: Timer, ghost due: map<Timer, nat>, ghost place: map<Timer, nat>) returns (armed: bool)
      requires Stored(due, place) && t in lists.nodes
      ensures armed <==> t in due
    {
      hide Word, Chained;
      armed := t.pprevious != NoBack && t.next != Poison1 && t.pprevious != Poison2;
    }

    /** Taking a timer off its list while slot `index` is being walked. */
    method TakeOff(t: Timer, ghost index: nat, ghost pending: seq<Timer>,
                   ghost due: map<Timer, nat>, ghost place: map<Timer, nat>)
      requires Stored(due, place) && t in due && index < SLOTS && Suffix(pending, lists.heads[index].chain)
      modifies lists.heads, lists.nodes`next, lists.nodes`pprevious
      ensures Stored(due - {t}, place - {t}) && Suffix(Without(pending, t), lists.heads[index].chain)
    {
      hide Word, Without, Suffix, Stored;
      StoredAs(t, due, place);
      SuffixWithout(t, pending, lists.heads[index].chain);
      Disarm(t, due, place);
    }

    method Cancel(t: Timer)
      requires Valid() && Enabled(view, Stop(t))
      modifies this`view, lists.heads, lists.nodes
      ensures Valid() && view == Apply(old(view), Stop(t))
    {
      hide Good, SlotFor, LevelFor, Word, Stored, Without, Suffix;
      StepKept(view, Stop(t));
      ghost var v, w := view, Apply(view, Stop(t));
      assert t in v.due && w == Drop(v, t).(pending := Without(v.pending, t), log := w.log, times := w.times);
      hide Enabled, Apply;
      assert w.pending != [] ==> w.pending[0] in v.pending;
      SuffixEmpty(lists.heads[WalkedSlot()].chain);
      TakeOff(t, WalkedSlot(), v.pending, v.due, v.place);
      view := w;
    }

    /** stop_timer: a timer that is not on a list is left alone. While a walk is under
        way its saved next node is not to be stopped. */
    method StopTimer(t: Timer)
      requires Valid() && t in lists.nodes
      requires view.pending != [] ==> t != view.pending[0]
      modifies this`view, lists.heads, lists.nodes
      ensures Valid()
      ensures t in old(view.due) ==> Enabled(old(view), Stop(t)) && view == Apply(old(view), Stop(t))
      ensures t !in old(view.due) ==> view == old(view)
      ensures view.due == old(view.due) - {t} && view.now == old(view.now)
      ensures view.log == old(view.log) + if t in old(view.due) then [Stopped(t)] else []
    {
      hide Good, Stored, OnTrack, Without;
      var armed := IsArmed(t, view.due, view.place);
      if armed {
        Cancel(t);
      }
    }

    /** A callback, or any code between two walks: it starts unarmed timers for later
        ticks and stops timers other than the walk's saved next node; actions outside
        that discipline are not taken. */
    method Run(actions: seq<Action>, saved: Link<nat>) returns (ghost marks: seq<nat>)
      requires Valid() && view.floor > 0 && Known(actions, lists.nodes) && saved == Front(view.pending)
      modifies this`view, lists.heads, lists.nodes
      ensures Valid() && view == Acted(old(view), actions) && saved == Front(view.pending)
      ensures view.now == old(view.now) && view.floor == old(view.floor) && view.done == old(view.done)
      ensures old(view.log) <= view.log && Traced(view.log, marks, actions, saved, view.now)
      ensures marks[0] == |old(view.log)| && marks[|actions|] == |view.log|
      ensures view.pending == Unstopped(old(view.pending), view.log, |old(view.log)|)
    {
      hide Good, Represents, OnTrack, Acts, Traced, Unstopped, ActedBy;
      ghost var v := view;
      marks := [|v.log|];
      NothingTraced(v.log, v.pending, saved, v.now);
      for i := 0 to |actions|
        invariant Valid() && view == Acted(v, actions[..i]) && saved == Front(view.pending)
        invariant view.now == v.now && view.floor == v.floor && view.done == v.done
        invariant v.log <= view.log && Traced(view.log, marks, actions[..i], saved, v.now)
        invariant |marks| == i + 1 && marks[0] == |v.log| && marks[i] == |view.log|
        invariant view.pending == Unstopped(v.pending, view.log, |v.log|)
      {
        assert actions[..i + 1][..i] == actions[..i];
        ghost var u := view;
        Act(actions[i], saved);
        ActedByIs(u, actions[i]);
        TracedOn(u.log, view.log, marks, actions, i, saved, v.now);
        UnstoppedOn(v.pending, u.log, view.log, |v.log|);
        marks := marks + [|view.log|];
      }
      assert actions[..|actions|] == actions;
    }

    method Act(a: Action, saved: Link<nat>)
      requires Valid() && view.floor > 0 && a.timer in lists.nodes && saved == Front(view.pending)
      modifies this`view, lists.heads, lists.nodes
      ensures Valid() && view == ActedBy(old(view), a)
      ensures view.now == old(view.now) && view.floor == old(view.floor) && view.done == old(view.done)
      ensures a.Begins? ==>
        if a.timer !in old(view.due) && 1 <= a.ahead < WORD
        then view.log == old(view.log) + [Started(a.timer, view.now + a.ahead)]
             && view.due == old(view.due)[a.timer := view.now + a.ahead]
        else view.log == old(view.log) && view.due == old(view.due)
      ensures a.Ends? ==>
        if a.timer in old(view.due) && saved != To(a.timer)
        then view.log == old(view.log) + [Stopped(a.timer)] && view.due == old(view.due) - {a.timer}
        else view.log == old(view.log) && view.due == old(view.due)
    {
      hide Good, Stored, OnTrack, Without;
      match a
      case Begins(t, ahead) =>
        var armed := IsArmed(t, view.due, view.place);
        if !armed && 1 <= ahead < WORD {
          StartTimer(t, ahead);
        }
      case Ends(t) =>
        if saved != To(t) {
          StopTimer(t);
        }
    }
  
    lemma SlotContents(index: nat, due: map<Timer, nat>, place: map<Timer, nat>)
      requires Stored(due, place) && index < SLOTS
      ensures var chain := lists.heads[index].chain;
              && Distinct(chain) && lists.heads[index].first == Front(chain)
              && (forall t :: t in chain ==> t in place && place[t] == index)
              && (forall t :: t in place && place[t] == index ==> t in chain)
    {
      hide Word;
      var h := lists.heads[index];
      assert h.Valid() && h.slot == index;
      forall t | t in h.chain
        ensures t in place && place[t] == index
      {
        assert t in h.members;
        assert lists.heads[place[t]].slot == place[t];
      }
    }

    lemma NextSaved(index: nat, pending: seq<Timer>, due: map<Timer, nat>, place: map<Timer, nat>)
      requires Stored(due, place) && index < SLOTS && pending != []
      requires Suffix(pending, lists.heads[index].chain)
      ensures pending[0] in due && place[pending[0]] == index && pending[0].next == Front(pending[1..])
    {
      hide Word;
      SlotContents(index, due, place);
      assert lists.heads[index].Valid();
      NextOnTail(lists.heads[index], lists.heads[index].chain, pending);
    }

    /** process_tvec enters the list of a slot. */
    method BeginWalk(index: nat) returns (hnode: Link<nat>)
      requires Valid() && view.pending == [] && view.floor < LEVELS && Walks(view.floor, view.now)
      requires index == SlotFor(view.floor, view.now)
      modifies this`view
      ensures Valid() && hnode == Front(view.pending)
      ensures index < |lists.heads| && view.pending == lists.heads[index].chain
      ensures Enabled(old(view), Begin(view.pending)) && view == Apply(old(view), Begin(view.pending))
      ensures view.floor == old(view.floor) + 1 && view.now == old(view.now) && view.done == old(view.done)
      ensures view.log == old(view.log)
    {
      hide Good, SlotFor, LevelFor, Word, Walks, Stored;
      ghost var chain := lists.heads[index].chain;
      SlotContents(index, view.due, view.place);
      StepKept(view, Begin(chain));
      hnode := lists.heads[index].first;
      view := Apply(view, Begin(chain));
    }
  
    lemma StoredAs(t: Timer, due: map<Timer, nat>, place: map<Timer, nat>)
      requires Stored(due, place) && t in due
      ensures |lists.heads| == SLOTS && t in lists.nodes && t.item == Word(due[t])
      ensures place.Keys == due.Keys
    {
      hide Lists.Valid, Word;
    }

    /** A walk's remove and add_timer, for a timer that has not expired. */
    method PutBack(t: Timer, ghost n: nat, ghost index: nat, ghost pending: seq<Timer>,
                   ghost due: map<Timer, nat>, ghost place: map<Timer, nat>)
      requires Stored(due, place) && t in due && index < SLOTS && Suffix(pending, lists.heads[index].chain)
      requires n <= due[t] < n + WORD && ticks == Word(n)
      modifies lists.heads, lists.nodes
      ensures Stored(due, place[t := SlotFor(LevelFor(due[t] - n), due[t])])
      ensures Suffix(Without(pending, t), lists.heads[index].chain)
    {
      hide SlotFor, LevelFor, Word, Stored, Suffix, Without;
      ghost var e, slot := due[t], SlotFor(LevelFor(due[t] - n), due[t]);
      StoredAs(t, due, place);
      BackIn(due, t, e);
      BackIn(place, t, slot);
      TakeOff(t, index, pending, due, place);
      ghost var chain := lists.heads[index].chain;
      var at := Choose(t.item, ticks, e, n);
      Link(t, at, e, due - {t}, place - {t});
      SuffixTrans(Without(pending, t), chain, lists.heads[index].chain);
    }

    method FireNext(t: Timer)
      requires Valid() && Enabled(view, Fire) && t == view.pending[0]
      modifies this`view, lists.heads, lists.nodes
      ensures Valid() && view == Apply(old(view), Fire)
    {
      hide Good, SlotFor, LevelFor, Word, Stored, Suffix;
      StepKept(view, Fire);
      PendingTail(view);
      TakeOff(t, WalkedSlot(), view.pending, view.due, view.place);
      view := Apply(view, Fire);
    }

    method MoveNext(t: Timer)
      requires Valid() && Enabled(view, Move) && t == view.pending[0]
      modifies this`view, lists.heads, lists.nodes
      ensures Valid() && view == Apply(old(view), Move)
    {
      hide Good, SlotFor, LevelFor, Word, Stored, Suffix;
      StepKept(view, Move);
      InWindow(view, t);
      PendingTail(view);
      PutBack(t, view.now, WalkedSlot(), view.pending, view.due, view.place);
      view := Apply(view, Move);
    }
  
    /** What process_tvec reads of a timer before it touches it. */
    method Peek(t: Timer, ghost n: nat, ghost index: nat, ghost pending: seq<Timer>,
                ghost due: map<Timer, nat>, ghost place: map<Timer, nat>)
      returns (next: Link<nat>, remaining: nat)
      requires Stored(due, place) && t in due && index < SLOTS && Suffix(pending, lists.heads[index].chain)
      requires pending != [] && t == pending[0] && n <= due[t] < n + WORD && ticks == Word(n)
      ensures next == Front(pending[1..]) && remaining == due[t] - n
    {
      hide Word, Suffix;
      NextSaved(index, pending, due, place);
      WrappedOffset(due[t], n);
      next := t.next;
      remaining := Word(t.item - ticks);
    }

    /** One turn of the loop of process_tvec. */
    method HandleNext(timer: Timer, actions: seq<Action>) returns (hnode: Link<nat>, ghost marks: seq<nat>)
      requires Valid() && view.pending != [] && timer == view.pending[0] && Known(actions, lists.nodes)
      modifies this`view, lists.heads, lists.nodes
      ensures Valid() && view == Handled(old(view), actions) && hnode == Front(view.pending)
      ensures view.now == old(view.now) && view.floor == old(view.floor) && view.done == old(view.done)
      ensures timer in old(view.due) && old(view.log) <= view.log
      ensures if old(view.due)[timer] != view.now
              then view.log == old(view.log) && view.due == old(view.due) && view.pending == old(view.pending)[1..]
              else && old(view.log) + [Fired(timer, view.now)] <= view.log
                   && Traced(view.log, marks, actions, Front(old(view.pending)[1..]), view.now)
                   && marks[0] == |old(view.log)| + 1 && marks[|actions|] == |view.log|
                   && view.pending == Unstopped(old(view.pending)[1..], view.log, |old(view.log)|)
    {
      hide Good, SlotFor, LevelFor, Word, Suffix, Known, Without, Stored, Traced, Unstopped;
      marks := [];
      ghost var v := view;
      assert view.floor > 0;
      CanHandle(view);
      InWindow(view, timer);
      var remaining;
      hnode, remaining := Peek(timer, view.now, WalkedSlot(), view.pending, view.due, view.place);
      if remaining == 0 {
        FireNext(timer);
        ghost var u := view;
        marks := Run(actions, hnode);
        UnstoppedAfterFire(u.pending, v.log, Fired(timer, v.now), view.log);
      } else {
        MoveNext(timer);
      }
    }

    /** process_tvec: each timer of the list is handled once, although re-insertions
        and the callbacks' starts may go to the head of the same list. */
    method ProcessTvec(index: nat, callbacks: Timer -> seq<Action>) returns (ghost chain: seq<Timer>)
      requires Valid() && view.pending == [] && view.floor < LEVELS && Walks(view.floor, view.now)
      requires index == SlotFor(view.floor, view.now)
      requires forall t :: t in lists.nodes ==> Known(callbacks(t), lists.nodes)
      modifies this`view, lists.heads, lists.nodes
      ensures Valid() && view.pending == [] && view.floor == old(view.floor) + 1
      ensures chain == old(lists.heads[index].chain)
      ensures Enabled(old(view), Begin(chain)) && view == WalkedOut(Apply(old(view), Begin(chain)), callbacks)
      ensures view.now == old(view.now) && view.done == old(view.done)
      ensures old(view.log) <= view.log && WalkLog(view.log, |old(view.log)|, chain, callbacks)
    {
      hide Good, SlotFor, Walks, Known, Represents, OnTrack, WalkLog, Unstopped, Apply, Handled;
      ghost var a := |view.log|;
      var hnode := BeginWalk(index);
      chain := view.pending;
      ghost var begun := view;
      ghost var k: nat := 0;
      WalkBegins(view.log, chain, callbacks);
      while hnode.To?
        invariant WalkedOut(view, callbacks) == WalkedOut(begun, callbacks)
        invariant Valid() && hnode == Front(view.pending) && view.floor == old(view.floor) + 1
        invariant view.now == old(view.now) && view.done == old(view.done) && old(view.log) <= view.log
        invariant k <= |chain| && view.pending == Unstopped(chain[k..], view.log, a)
        invariant WalkLog(view.log, a, chain, callbacks)
        decreases |view.pending|
      {
        k, hnode := WalkStep(hnode.node, callbacks, chain, k, a);
      }
    }

    /** One turn of a walk over chain that began at position a and has come to index k. */
    method WalkStep(timer: Timer, callbacks: Timer -> seq<Action>, ghost chain: seq<Timer>, ghost k: nat, ghost a: nat)
      returns (ghost k': nat, hnode: Link<nat>)
      requires Valid() && view.pending != [] && timer == view.pending[0]
      requires forall t :: t in lists.nodes ==> Known(callbacks(t), lists.nodes)
      requires k <= |chain| && view.pending == Unstopped(chain[k..], view.log, a) && WalkLog(view.log, a, chain, callbacks)
      modifies this`view, lists.heads, lists.nodes
      ensures Valid() && view == Handled(old(view), callbacks(timer)) && hnode == Front(view.pending)
      ensures view.now == old(view.now) && view.floor == old(view.floor) && view.done == old(view.done)
      ensures old(view.log) <= view.log && WalkLog(view.log, a, chain, callbacks)
      ensures k' <= |chain| && view.pending == Unstopped(chain[k'..], view.log, a)
    {
      hide Good, Represents, OnTrack, Known, WalkLog, Unstopped, Traced, Handled;
      ghost var v := view;
      CanHandle(v);
      DueIsKnown(timer);
      ghost var i := FirstUnstopped(chain[k..], v.log, a);
      assert chain[k..][i] == chain[k + i] && chain[k..][i + 1..] == chain[k + i + 1..];
      ghost var marks;
      hnode, marks := HandleNext(timer, callbacks(timer));
      k' := k + i + 1;
      if v.due[timer] == v.now {
        WalkedAt(v.log, a, chain, callbacks);
        TracedLength(view.log, marks, callbacks(timer), Front(v.pending[1..]), v.now);
        WalkedOn(v.log, view.log, a, chain, callbacks, k + i, v.now, marks);
        UnstoppedOn(chain[k'..], v.log, view.log, a);
      }
    }

    lemma DueIsKnown(t: Timer)
      requires Represents() && t in view.due
      ensures t in lists.nodes
    {
    }
  
    /** The nested ifs of process_tick, from level l on: the slot of level l is walked,
        and the next level too when l has come round to its slot 0. */
    method Cascade(l: nat, callbacks: Timer -> seq<Action>) returns (ghost chains: seq<seq<Timer>>)
      requires Valid() && view.pending == [] && view.floor == l < LEVELS && Walks(l, view.now)
      requires forall t :: t in lists.nodes ==> Known(callbacks(t), lists.nodes)
      modifies this`view, lists.heads, lists.nodes
      ensures Valid() && view.pending == [] && view.floor == LEVELS
      ensures view == Cascaded(old(view), callbacks, chains)
      ensures view.now == old(view.now) && view.done == old(view.done)
      ensures old(view.log) <= view.log && Ticking(view.log, |old(view.log)|, chains, callbacks)
      decreases LEVELS - l
    {
      hide Good, SlotFor, Word, Known, Stored, OnTrack, Ticking, WalkLog;
      ghost var a := |view.log|;
      var slot := SlotFor(l, ticks);
      Wrapped(l, view.now);
      ghost var chain := ProcessTvec(slot, callbacks);
      ghost var rest: seq<seq<Timer>> := [];
      ghost var log := view.log;
      NoWalk(log, callbacks);
      if l + 1 < LEVELS {
        if slot == Base(l) {
          rest := Cascade(l + 1, callbacks);
        } else {
          StopCascade();
        }
      }
      chains := [chain] + rest;
      assert chains[1..] == rest;
      TickingOn(log, view.log, a, chain, rest, callbacks);
    }

    ghost method StopCascade()
      requires Valid() && Enabled(view, Skip)
      modifies this`view
      ensures Valid() && view == Apply(old(view), Skip)
    {
      hide Good, Stored;
      StepKept(view, Skip);
      view := Apply(view, Skip);
    }

    /** process_tick up to its unlock. `callbacks` says what each timer's callback does;
        a timer without one sends an event, which is a callback that does nothing here. */
    method ProcessTick(callbacks: Timer -> seq<Action>) returns (ghost chains: seq<seq<Timer>>)
      requires Valid() && view.floor == 0
      requires forall t :: t in lists.nodes ==> Known(callbacks(t), lists.nodes)
      modifies this, lists.heads, lists.nodes
      ensures Valid() && processed && view == Performed(old(view), Processes(callbacks), chains)
      ensures view.now == old(view.now) && ticks == old(ticks)
      ensures old(view.log) < view.log && view.log[|view.log| - 1] == Ticked(view.now)
      ensures Processed(view.log, |old(view.log)|, view.now, chains, callbacks)
    {
      hide Good, Stored, Word, Known, Ticking, Processed;
      AtRest(view);
      ghost var a := |view.log|;
      chains := Cascade(0, callbacks);
      TickingDone(view.log, a, view.now, chains, callbacks);
      StepKept(view, Finish);
      view := Apply(view, Finish);
      processed := true;
    }

    /** ++ticks, outside the lock: starts and stops may have come in between. */
    method IncrementTicks()
      requires Valid() && processed
      modifies this
      ensures Valid() && view == Apply(old(view), Tick) && !processed && view.floor == 0
    {
      hide Good, Stored, Word;
      AtEnd(view);
      StepKept(view, Tick);
      WrappedSum(1, view.now);
      ticks := Word(1 + ticks);
      processed := false;
      view := Apply(view, Tick);
    }
  
    /** Between the timer thread's own operations. */
    ghost predicate Resting()
      reads this
    {
      view.floor == (if processed then LEVELS else 0)
    }

    /** start_timer as a thread other than the timer's calls it: nothing if it is outside the
        discipline. */
    method TryStart(t: Timer, ahead: nat)
      requires Valid() && Resting() && t in lists.nodes
      modifies this`view, lists.heads, lists.nodes
      ensures Valid() && Resting() && view == Try(old(view), Start(t, ahead))
      ensures view.now == old(view.now) && view.done == old(view.done) == processed
      ensures if t !in old(view.due) && ahead < WORD && (ahead >= 1 || !view.done)
              then view.due == old(view.due)[t := view.now + ahead]
                   && view.log == old(view.log) + [Started(t, view.now + ahead)]
              else view == old(view)
    {
      hide Good, Stored, Word, OnTrack;
      if processed {
        AtEnd(view);
      } else {
        AtRest(view);
      }
      var armed := IsArmed(t, view.due, view.place);
      if !armed && ahead < WORD && (processed ==> 1 <= ahead) {
        StartTimer(t, ahead);
      }
    }

    /** One command; one that is outside the discipline is not taken. */
    method Perform(c: Command) returns (ghost chains: seq<seq<Timer>>)
      requires Valid() && Resting() && c.Orderly(lists.nodes)
      modifies this, lists.heads, lists.nodes
      ensures Valid() && Resting() && old(view.log) <= view.log
      ensures view == Performed(old(view), c, chains) && view.done == NowDone(old(view.done), c)
      ensures view.now == old(view.now) + if c.Increments? && old(view.done) then 1 else 0
      ensures Took(view.log, old(Here()), Here(), c, chains)
      ensures c.Disarms? ==>
        && view.due == old(view.due) - {c.timer}
        && view.log == old(view.log) + if c.timer in old(view.due) then [Stopped(c.timer)] else []
      ensures c.Arms? ==>
        if c.timer !in old(view.due) && c.ahead < WORD && (c.ahead >= 1 || !old(view.done))
        then view.due == old(view.due)[c.timer := view.now + c.ahead]
             && view.log == old(view.log) + [Started(c.timer, view.now + c.ahead)]
        else view.due == old(view.due) && view.log == old(view.log)
    {
      hide Good, Stored, Word, Known, OnTrack, Without, Cascaded, Processed, Armed;
      chains := [];
      if processed {
        AtEnd(view);
      } else {
        AtRest(view);
      }
      DueIsArmed(view);
      assert view.log[..|view.log|] == view.log;
      match c {
        case Arms(t, ahead) =>
          TryStart(t, ahead);
        case Disarms(t) =>
          StopTimer(t);
        case Processes(callbacks) =>
          if !processed {
            chains := ProcessTick(callbacks);
            AtEnd(view);
            assert view.log[..|view.log|] == view.log;
          }
        case Increments =>
          if processed {
            IncrementTicks();
          }
      }
      assert view.log[..|old(view.log)|] == old(view.log);
    }

    ghost function Here(): Mark
      reads this
    {
      Mark(|view.log|, view.now, view.done)
    }

    /** Any sequence of starts, stops and ticks, as threads other than the timer's
        interleave with it: the wheel does what the model does, every tick begun is
        walked to its end, and the counter is where the increments put it. In the log,
        each command has left exactly what it is to leave, in order. */
    method Execute(script: seq<Command>) returns (ghost walks: seq<seq<seq<Timer>>>, ghost marks: seq<Mark>)
      requires Valid() && Resting() && forall c :: c in script ==> c.Orderly(lists.nodes)
      modifies this, lists.heads, lists.nodes
      ensures Valid() && Resting() && old(view.log) <= view.log
      ensures |walks| == |script| && view == Executed(old(view), script, walks)
      ensures Complete(old(view), script, walks) && view.done == Done(old(view.done), script)
      ensures view.now == old(view.now) + Turns(old(view.done), script)
      ensures Scripted(view.log, marks, script, walks) && marks[0] == old(Here()) && marks[|script|] == Here()
    {
      hide Good, Represents, OnTrack, Performed, Command.Orderly, Took;
      walks := [];
      marks := [Here()];
      for i := 0 to |script|
        invariant Valid() && Resting() && old(view.log) <= view.log
        invariant |walks| == i && view == Executed(old(view), script[..i], walks)
        invariant Complete(old(view), script[..i], walks) && view.done == Done(old(view.done), script[..i])
        invariant view.now == old(view.now) + Turns(old(view.done), script[..i])
        invariant Scripted(view.log, marks, script[..i], walks) && marks[0] == old(Here()) && marks[i] == Here()
      {
        assert script[..i + 1][..i] == script[..i];
        ghost var before, log := walks, view.log;
        ghost var chains := Perform(script[i]);
        ScriptedStill(log, view.log, marks, script[..i], walks);
        walks, marks := walks + [chains], marks + [Here()];
        assert walks[..i] == before;
      }
      assert script[..|script|] == script;
    }

    /** So the wheel is exact: the timers that have fired at tick n are those started for
        n and not stopped, and no armed timer was re-inserted more than its delay allows. */
    lemma Exact(t: Timer)
      requires Valid()
      ensures view.due == Armed(view.log)
      ensures forall n, k :: 0 <= k < |view.log| && view.log[k] == Ticked(n) ==>
        (Expected(view.log, t, n, k) <==> exists j :: 0 <= j < k && view.log[j] == Fired(t, n))
      ensures t in view.due ==>
        t in view.moves && t in view.delay && view.moves[t] <= 4 + view.delay[t] / 4194304
    {
      GoodIsExact(view, t);
    }
  }
}
