/** The accepted connections that the gateway's HA task polls: eight slots, 0 meaning
    free, and a separate count of the used ones (dgwy_vlan_ha_task.c). */
module PollList {

  const MAX_POLLFD: nat := 8

  /** The used slots, in order. */
  ghost function Live(slots: seq<int>): (fds: seq<int>)
    ensures |fds| <= |slots|
  {
    if |slots| == 0 then []
    else
      var n := |slots| - 1;
      Live(slots[..n]) + if slots[n] == 0 then [] else [slots[n]]
  }

  lemma {:induction false} LiveFull(slots: seq<int>)
    ensures |Live(slots)| == |slots| <==> 0 !in slots
  {
    if |slots| > 0 {
      var n := |slots| - 1;
      LiveFull(slots[..n]);
      assert slots == slots[..n] + [slots[n]];
    }
  }

  lemma LiveLast(xs: seq<int>, x: int)
    ensures Live(xs + [x]) == Live(xs) + if x == 0 then [] else [x]
  {
    assert (xs + [x])[..|xs|] == xs;
  }

  lemma {:induction false} LiveSplit(xs: seq<int>, ys: seq<int>)
    ensures Live(xs + ys) == Live(xs) + Live(ys)
    decreases |ys|, 1
  {
    if |ys| == 0 {
      assert xs + ys == xs;
    } else {
      LiveSplitLast(xs, ys[..|ys| - 1], ys[|ys| - 1], ys);
    }
  }

  lemma {:induction false} LiveSplitLast(xs: seq<int>, init: seq<int>, y: int, ys: seq<int>)
    requires ys == init + [y]
    ensures Live(xs + ys) == Live(xs) + Live(ys)
    decreases |ys|, 0
  {
    hide Live;
    LiveSplit(xs, init);
    LiveLast(init, y);
    LiveLast(xs + init, y);
    assert xs + ys == (xs + init) + [y];
    var last := if y == 0 then [] else [y];
    assert Live(xs) + (Live(init) + last) == (Live(xs) + Live(init)) + last;
  }

  /** Setting slot i puts its descriptor where the slot is, or takes it out. */
  lemma LiveSet(slots: seq<int>, i: nat, fd: int)
    requires i < |slots|
    ensures Live(slots[i := fd]) == Live(slots[..i]) + (if fd == 0 then [] else [fd]) + Live(slots[i + 1..])
    ensures Live(slots) == Live(slots[..i]) + (if slots[i] == 0 then [] else [slots[i]]) + Live(slots[i + 1..])
  {
    LiveAround(slots[..i], fd, slots[i + 1..]);
    LiveAround(slots[..i], slots[i], slots[i + 1..]);
    assert slots[i := fd] == slots[..i] + [fd] + slots[i + 1..];
    assert slots == slots[..i] + [slots[i]] + slots[i + 1..];
  }

  lemma LiveAround(xs: seq<int>, fd: int, ys: seq<int>)
    ensures Live(xs + [fd] + ys) == Live(xs) + (if fd == 0 then [] else [fd]) + Live(ys)
  {
    LiveSplit(xs + [fd], ys);
    assert (xs + [fd])[..|xs|] == xs;
  }

  class Poll {
    const slots: array<int>
    var idxPoll: int

    ghost predicate Valid()
      reads this, slots
    {
      slots.Length == MAX_POLLFD && idxPoll == |Live(slots[..])|
    }

    constructor ()
      ensures Valid() && fresh(slots) && slots.Length == 8 && idxPoll == 0
    {
      slots := new int[MAX_POLLFD](_ => 0);
      idxPoll := 0;
      new;
      assert forall k :: 0 <= k < MAX_POLLFD ==> slots[..][k] == 0;
      AllFree(slots[..]);
    }

    static lemma {:induction false} AllFree(free: seq<int>)
      requires forall k :: 0 <= k < |free| ==> free[k] == 0
      ensures Live(free) == []
    {
      if |free| > 0 {
        AllFree(free[..|free| - 1]);
      }
    }

    /** add_fds_list: it finds a free slot, the first one, unless all are used, and the
        count stays right exactly when the descriptor is not 0. */
    method Add(fd: int) returns (rc: int)
      requires Valid()
      modifies this, slots
      ensures rc == if old(idxPoll) == 8 then -1 else 0
      ensures rc == -1 ==> unchanged(this) && unchanged(slots)
      ensures rc == 0 ==> exists i :: 0 <= i < 8 && old(slots[i]) == 0 && 0 !in old(slots[..i])
                                      && slots[..] == old(slots[..])[i := fd]
      ensures Valid() <==> rc == -1 || fd != 0
    {
      var emptyIdx := -1;
      if idxPoll >= MAX_POLLFD {
        return -1;
      }
      var i := 0;
      while i < MAX_POLLFD
        invariant 0 <= i <= MAX_POLLFD && emptyIdx == -1
        invariant forall j :: 0 <= j < i ==> slots[j] != 0
      {
        if emptyIdx == -1 && slots[i] == 0 {
          emptyIdx := i;
          break;
        }
        i := i + 1;
      }
      LiveFull(slots[..]);
      if emptyIdx != -1 {
        LiveSet(slots[..], emptyIdx, fd);
        slots[emptyIdx] := fd;
        idxPoll := idxPoll + 1;
        assert slots[..] == old(slots[..])[emptyIdx := fd];
      }
      rc := 0;
    }

    /** rem_fds: the first slot that holds the descriptor is freed, and only that. */
    method Remove(fd: int)
      requires Valid()
      modifies this, slots
      ensures Valid()
      ensures fd <= 0 || fd !in old(slots[..]) ==> unchanged(this) && unchanged(slots)
      ensures fd > 0 && fd in old(slots[..]) ==>
        && idxPoll == old(idxPoll) - 1
        && exists i :: 0 <= i < 8 && old(slots[i]) == fd && fd !in old(slots[..i])
                       && slots[..] == old(slots[..])[i := 0]
    {
      if fd <= 0 {
        return;
      }
      var i := 0;
      while i < MAX_POLLFD
        invariant 0 <= i <= MAX_POLLFD && forall j :: 0 <= j < i ==> slots[j] != fd
        invariant unchanged(this) && unchanged(slots)
      {
        if slots[i] == fd {
          LiveSet(slots[..], i, 0);
          slots[i] := 0;
          idxPoll := idxPoll - 1;
          assert slots[..] == old(slots[..])[i := 0];
          return;
        }
        i := i + 1;
      }
    }

    /** dgwy_ha_state_poll's copy of the list: every used slot and nothing else. */
    method Gather() returns (pfds: seq<int>)
      requires Valid()
      ensures pfds == Live(slots[..]) && |pfds| == idxPoll
    {
      pfds := [];
      if idxPoll <= 0 {
        return;
      }
      for i := 0 to MAX_POLLFD
        invariant pfds == Live(slots[..i])
      {
        assert slots[..i + 1][..i] == slots[..i];
        if slots[i] != 0 {
          pfds := pfds + [slots[i]];
        }
      }
      assert slots[..MAX_POLLFD] == slots[..];
    }
  }
}
