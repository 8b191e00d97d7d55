/** Burst escalation (internal/notification/types.go, `DetectBurst`). Times are nanoseconds. */
module Bursts {
  import opened Basics

  datatype Settings = Settings(count: int, window: int, priority: int) {
    predicate Enabled() { count > 0 && window > 0 }

    function Length(): int { window * SECOND }
  }

  predicate InOrder(s: seq<int>) {
    |s| <= 1 || (s[|s| - 2] <= s[|s| - 1] && InOrder(s[..|s| - 1]))
  }

  lemma {:induction false} LastIsLatest(s: seq<int>, i: nat)
    requires InOrder(s) && i < |s|
    ensures s[i] <= s[|s| - 1]
  {
    if i < |s| - 1 {
      LastIsLatest(s[..|s| - 1], i);
    }
  }

  /** The triggers later than the cutoff, in order. */
  function Later(s: seq<int>, cutoff: int): (r: seq<int>)
    ensures |r| <= |s|
  {
    if s == [] then []
    else
      var init, last := s[..|s| - 1], s[|s| - 1];
      if last > cutoff then Later(init, cutoff) + [last] else Later(init, cutoff)
  }

  lemma LaterOfPush(s: seq<int>, x: int, cutoff: int)
    ensures Later(s + [x], cutoff) == if x > cutoff then Later(s, cutoff) + [x] else Later(s, cutoff)
  {
  }

  /** The later ones among the first i triggers. */
  ghost function LaterUpTo(s: seq<int>, i: nat, cutoff: int): seq<int>
    requires i <= |s|
  {
    if i == 0 then [] else LaterUpTo(s, i - 1, cutoff) + if s[i - 1] > cutoff then [s[i - 1]] else []
  }

  lemma {:induction false} LaterUpToEnd(s: seq<int>, i: nat, cutoff: int)
    requires i <= |s|
    ensures LaterUpTo(s, i, cutoff) == Later(s[..i], cutoff)
  {
    if i > 0 {
      LaterUpToEnd(s, i - 1, cutoff);
      assert s[..i] == s[..i - 1] + [s[i - 1]];
      LaterOfPush(s[..i - 1], s[i - 1], cutoff);
    }
  }

  /** Pruning what was pruned before, at an earlier cutoff, is the same as pruning everything. */
  lemma {:induction false} PruneTwice(s: seq<int>, first: int, second: int)
    requires first <= second
    ensures Later(Later(s, first), second) == Later(s, second)
  {
    if s != [] {
      var init, last := s[..|s| - 1], s[|s| - 1];
      PruneTwice(init, first, second);
      if last > first {
        LaterOfPush(Later(init, first), last, second);
      }
    }
  }

  lemma {:induction false} NoneLater(s: seq<int>, cutoff: int)
    requires InOrder(s) && (s != [] ==> s[|s| - 1] <= cutoff)
    ensures Later(s, cutoff) == []
  {
    if s != [] {
      NoneLater(s[..|s| - 1], cutoff);
    }
  }

  /** Of an ordered history the later triggers are a suffix, so at least n of them are later than the
      cutoff exactly when the n-th most recent one is. */
  lemma {:induction false} EnoughIff(s: seq<int>, cutoff: int, n: nat)
    requires InOrder(s) && n > 0
    ensures |Later(s, cutoff)| >= n <==> |s| >= n && s[|s| - n] > cutoff
  {
    if s != [] {
      var init, last := s[..|s| - 1], s[|s| - 1];
      if last <= cutoff {
        NoneLater(init, cutoff);
        if |s| >= n {
          LastIsLatest(s, |s| - n);
        }
      } else if n > 1 {
        EnoughIff(init, cutoff, n - 1);
      }
    }
  }

  /** The count-th most recent trigger is less than a window before the latest one. */
  ghost predicate Burst(settings: Settings, s: seq<int>) {
    && 0 < settings.count <= |s|
    && s[|s| - settings.count] > s[|s| - 1] - settings.window * 1_000_000_000
  }

  /** The triggers of the window that ends with the latest one. */
  ghost function Recent(settings: Settings, s: seq<int>): seq<int> {
    if s == [] then [] else Later(s, s[|s| - 1] - settings.Length())
  }

  lemma PruneRecent(settings: Settings, s: seq<int>, cutoff: int)
    requires s != [] ==> s[|s| - 1] - settings.Length() <= cutoff
    ensures Later(Recent(settings, s), cutoff) == Later(s, cutoff)
  {
    if s != [] {
      PruneTwice(s, s[|s| - 1] - settings.Length(), cutoff);
    }
  }

  lemma BurstIff(settings: Settings, s: seq<int>)
    requires InOrder(s) && s != [] && settings.Enabled()
    ensures Burst(settings, s) <==> |Recent(settings, s)| >= settings.count
  {
    EnoughIff(s, s[|s| - 1] - settings.Length(), settings.count);
  }

  /** count is the number of triggers later than the cutoff: the n-th most recent is, for every n up to it
      and for none beyond. */
  ghost predicate CountsWithin(s: seq<int>, cutoff: int, count: nat) {
    forall n: nat :: n > 0 ==> (NthAfter(s, cutoff, n) <==> n <= count)
  }

  predicate NthAfter(s: seq<int>, cutoff: int, n: nat) { 0 < n <= |s| && s[|s| - n] > cutoff }

  lemma RecentIsWithin(settings: Settings, s: seq<int>)
    requires InOrder(s) && s != []
    ensures CountsWithin(s, s[|s| - 1] - settings.Length(), |Recent(settings, s)|)
  {
    var cutoff := s[|s| - 1] - settings.Length();
    forall n: nat | n > 0 ensures NthAfter(s, cutoff, n) <==> n <= |Recent(settings, s)| {
      EnoughIff(s, cutoff, n);
    }
  }

  /** One container's tracker: a slice `buffer[..length]` that is pruned in place. */
  class BurstTracker {
    const settings: Settings
    var buffer: array<int>
    var length: nat
    ghost var history: seq<int>

    ghost predicate Valid()
      reads this, buffer
    {
      && length <= buffer.Length && InOrder(history)
      && Kept() == Recent(settings, history)
    }

    ghost function Kept(): (s: seq<int>)
      requires length <= buffer.Length
      reads this, buffer
      ensures |s| == length
    {
      buffer[..length]
    }

    constructor (settings: Settings)
      ensures Valid() && this.settings == settings && history == [] && fresh(buffer)
    {
      this.settings, buffer, length, history := settings, new int[0], 0, [];
    }

    /** The alert escalates exactly when a burst priority is set and the count-th most recent trigger
        is within the window. */
    method DetectBurst(now: int, basePriority: int) returns (priority: int, escalated: bool, count: nat)
      requires Valid() && InOrder(history + [now])
      modifies this, buffer
      ensures Valid() && (buffer == old(buffer) || fresh(buffer))
      ensures settings.count <= 0 || settings.window <= 0 ==>
                history == old(history) && length == old(length) && count == 0 && !escalated
      ensures settings.count > 0 && settings.window > 0 ==>
                && history == old(history) + [now]
                && count == length == |Recent(settings, history)|
                && CountsWithin(history, now - settings.window * 1_000_000_000, count)
                && (escalated <==> settings.priority > 0 && count >= settings.count)
                && (escalated <==> settings.priority > 0 && Burst(settings, history))
      ensures priority == if escalated then settings.priority else basePriority
    {
      priority, escalated, count := basePriority, false, 0;
      if settings.count <= 0 || settings.window <= 0 {
        return;
      }
      Record(now);
      BurstIff(settings, history);
      RecentIsWithin(settings, history);
      count := length;
      if length >= settings.count && settings.priority > 0 {
        priority, escalated := settings.priority, true;
      }
    }

    /** The tracker then holds exactly the triggers of the whole history that are later than the
        cutoff, the current one last. */
    method Record(now: int)
      requires Valid() && InOrder(history + [now]) && settings.Enabled()
      modifies this, buffer
      ensures Valid() && (buffer == old(buffer) || fresh(buffer)) && history == old(history) + [now]
      ensures length > 0 && Kept()[length - 1] == now
    {
      var cutoff := now - settings.Length();
      assert (history + [now])[..|history|] == history;
      PruneHistory(cutoff);
      LaterOfPush(history, now, cutoff);
      Append(now);
      history := history + [now];
    }

    method PruneHistory(cutoff: int)
      requires Valid() && (history != [] ==> history[|history| - 1] - settings.Length() <= cutoff)
      modifies this`length, buffer
      ensures length <= buffer.Length && Kept() == Later(history, cutoff)
    {
      PruneRecent(settings, history, cutoff);
      Prune(cutoff);
    }

    /** Compaction in place: later triggers move down over the ones that are dropped. */
    method Prune(cutoff: int)
      requires length <= buffer.Length
      modifies this`length, buffer
      ensures length <= buffer.Length && Kept() == Later(old(Kept()), cutoff)
    {
      ghost var all, kept: seq<int> := Kept(), [];
      var n := 0;
      for i := 0 to length
        invariant n <= i && length == old(length) && n == |kept|
        invariant forall k :: i <= k < length ==> buffer[k] == all[k]
        invariant forall k :: 0 <= k < n ==> buffer[k] == kept[k]
        invariant kept == LaterUpTo(all, i, cutoff)
      {
        var t := buffer[i];
        if t > cutoff {
          buffer[n] := t;
          n := n + 1;
          kept := kept + [t];
        }
      }
      LaterUpToEnd(all, length, cutoff);
      assert all[..length] == all;
      length := n;
      assert Kept() == kept;
    }

    /** Into the spare capacity if there is any, else into a larger array. */
    method Append(t: int)
      requires length <= buffer.Length
      modifies this`length, this`buffer, buffer
      ensures length == old(length) + 1 <= buffer.Length && (buffer == old(buffer) || fresh(buffer))
      ensures Kept() == old(Kept()) + [t]
    {
      if length == buffer.Length {
        var larger := new int[2 * buffer.Length + 1];
        for i := 0 to length
          invariant buffer == old(buffer) && length == old(length) && buffer[..] == old(buffer[..])
          invariant larger[..i] == buffer[..i]
        {
          larger[i] := buffer[i];
        }
        buffer := larger;
      }
      buffer[length] := t;
      length := length + 1;
    }
  }
}
