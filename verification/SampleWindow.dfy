/** The ring buffer (internal/utils/ring_buffer.go). */
module RingBuffers {
  /** The last n elements, or all of them. */
  function Last<T>(n: nat, s: seq<T>): (r: seq<T>)
    ensures |r| == (if |s| <= n then |s| else n) && r == s[|s| - |r|..]
  {
    if |s| <= n then s else s[|s| - n..]
  }

  lemma LastOfPush<T>(n: nat, s: seq<T>, x: T)
    requires n > 0
    ensures Last(n, s + [x]) == if |s| < n then Last(n, s) + [x] else Last(n, s)[1..] + [x]
  {
  }

  lemma NextStart(k: nat, n: nat)
    requires k < n
    ensures (k + 1) % n == if k + 1 == n then 0 else k + 1
  {
  }

  lemma Rotate<T>(d: seq<T>, k: nat, x: T)
    requires k < |d|
    ensures var next := if k + 1 == |d| then 0 else k + 1;
            d[k := x][next..] + d[k := x][..next] == (d[k..] + d[..k])[1..] + [x]
  {
  }

  /** `pushed` is everything pushed since the buffer was made or cleared. */
  class RingBuffer<T> {
    const size: nat
    var data: seq<T>
    var start: nat
    ghost var pushed: seq<T>

    ghost predicate Valid()
      reads this
    {
      && 0 < size
      && |data| <= size && (if |data| < size then start == 0 else start < size)
      && data[start..] + data[..start] == Last(size, pushed)
    }

    constructor (size: nat)
      requires size > 0
      ensures Valid() && this.size == size && pushed == []
    {
      this.size, data, start, pushed := size, [], 0, [];
    }

    constructor From(size: nat, initial: seq<T>)
      requires size > 0
      ensures Valid() && this.size == size && pushed == initial
    {
      this.size, start, pushed := size, 0, initial;
      if |initial| == 0 {
        data := [];
      } else if |initial| > size {
        data := initial[|initial| - size..];
      } else {
        data := initial;
      }
    }

    method Push(x: T)
      requires Valid()
      modifies this
      ensures Valid() && pushed == old(pushed) + [x]
    {
      LastOfPush(size, pushed, x);
      ghost var before := data[start..] + data[..start];
      if |data| == size {
        Overwrite(x);
      } else {
        data := data + [x];
        assert data[start..] + data[..start] == before + [x];
      }
      pushed := pushed + [x];
    }

    /** The oldest element gives way and the next oldest becomes the start. */
    method Overwrite(x: T)
      requires 0 < size == |data| && start < size
      modifies this`data, this`start
      ensures |data| == size && start < size
      ensures data[start..] + data[..start] == old(data[start..] + data[..start])[1..] + [x]
    {
      Rotate(data, start, x);
      NextStart(start, size);
      data := data[start := x];
      start := (start + 1) % size;
    }

    method Len() returns (n: nat)
      requires Valid()
      ensures n == if |pushed| < size then |pushed| else size
    {
      n := |data|;
    }

    method Clear()
      requires Valid()
      modifies this
      ensures Valid() && pushed == []
    {
      data, start, pushed := [], 0, [];
    }

    /** Always the last `size` pushes, oldest first. */
    method Data() returns (r: seq<T>)
      requires Valid()
      ensures r == Last(size, pushed)
    {
      if |data| == size {
        r := data[start..] + data[..start];
      } else {
        r := data;
      }
    }
  }
}

/** Metric alerts over a window of samples (internal/notification/types.go). */
module MetricSampling {
  import opened RingBuffers

  function SampleWindow(configured: int): (w: nat)
    ensures configured <= 0 ==> w == 15
    ensures 1 <= configured <= 300 ==> w == configured
    ensures configured > 300 ==> w == 300
  {
    if configured <= 0 then 15 else if configured > 300 then 300 else configured
  }

  function Trues(s: seq<bool>): (n: nat)
    ensures n <= |s|
  {
    if s == [] then 0 else Trues(s[..|s| - 1]) + if s[|s| - 1] then 1 else 0
  }

  /** At least w samples, at least four fifths of the last w of them true. */
  ghost predicate Sustained(w: nat, samples: seq<bool>) { |samples| >= w && 5 * Trues(Last(w, samples)) >= 4 * w }

  /** The positions of the true samples among the last w. */
  ghost function TruePositions(samples: seq<bool>, w: nat): set<int> {
    set i | 0 <= i < |samples| && |samples| - w <= i && samples[i]
  }

  lemma {:induction false} TruesArePositions(samples: seq<bool>, from: nat, to: nat)
    requires from <= to <= |samples|
    ensures Trues(samples[from..to]) == |set i | from <= i < to && samples[i]|
  {
    var there := set i | from <= i < to && samples[i];
    if from < to {
      TruesArePositions(samples, from, to - 1);
      var before := set i | from <= i < to - 1 && samples[i];
      assert samples[from..to][..to - 1 - from] == samples[from..to - 1];
      assert there == before + if samples[to - 1] then {to - 1} else {};
    } else {
      assert there == {};
    }
  }

  lemma SustainedIff(w: nat, samples: seq<bool>)
    ensures Sustained(w, samples) <==> |samples| >= w && 5 * |TruePositions(samples, w)| >= 4 * w
  {
    if |samples| >= w {
      var from := |samples| - w;
      TruesArePositions(samples, from, |samples|);
      assert TruePositions(samples, w) == set i | from <= i < |samples| && samples[i];
      assert samples[from..|samples|] == Last(w, samples);
    }
  }

  lemma {:induction false} TruesConcat(a: seq<bool>, b: seq<bool>)
    ensures Trues(a + b) == Trues(a) + Trues(b)
  {
    if b == [] {
      assert a + b == a;
    } else {
      assert (a + b)[..|a + b| - 1] == a + b[..|b| - 1];
      TruesConcat(a, b[..|b| - 1]);
    }
  }

  /** With a full window, one more sample moves the count by what enters less what leaves. */
  lemma WindowSlides(w: nat, samples: seq<bool>, x: bool)
    requires 0 < w <= |samples|
    ensures var leaves := samples[|samples| - w];
            Trues(Last(w, samples + [x])) ==
            Trues(Last(w, samples)) + (if x then 1 else 0) - (if leaves then 1 else 0)
  {
    LastOfPush(w, samples, x);
    var last := Last(w, samples);
    assert last == [last[0]] + last[1..];
    TruesConcat([last[0]], last[1..]);
    TruesConcat(last[1..], [x]);
    assert [last[0]][..0] == [] && [x][..0] == [];
  }

  /** An alert that starts is started by a true sample: a false one never turns the condition on
      once the window is full. */
  lemma OnlyTrueStarts(w: nat, samples: seq<bool>)
    requires 0 < w <= |samples| && !Sustained(w, samples)
    ensures !Sustained(w, samples + [false])
  {
    WindowSlides(w, samples, false);
  }

  /** One subscription's sample buffers, one per container. */
  class MetricSampler {
    var window: nat
    var buffers: map<string, RingBuffer<bool>>
    ghost var history: map<string, seq<bool>>

    ghost predicate HasBuffer(c: string)
      reads this, buffers.Values
    {
      if c in buffers then
        && c in history && buffers[c].Valid()
        && buffers[c].size == window && buffers[c].pushed == history[c]
      else c !in history || window <= 1
    }

    ghost predicate Valid()
      reads this, buffers.Values
    {
      && 1 <= window <= 300 && (window == 1 ==> buffers == map[])
      && (forall c :: HasBuffer(c))
      && (forall c, d :: c in buffers && d in buffers && c != d ==> buffers[c] != buffers[d])
    }

    ghost function Samples(c: string): seq<bool>
      reads this
    {
      if c in history then history[c] else []
    }

    constructor (configured: int)
      ensures Valid() && window == SampleWindow(configured) && history == map[] && buffers == map[]
    {
      window := SampleWindow(configured);
      buffers, history := map[], map[];
    }

    /** Changing the window starts all buffers afresh. */
    method SetWindow(configured: int)
      modifies this
      ensures Valid() && window == SampleWindow(configured) && history == map[] && buffers == map[]
    {
      window := SampleWindow(configured);
      buffers, history := map[], map[];
    }

    /** The sample is added to its container's history, and the alert condition is exactly
        `Sustained` of that history. */
    method RecordMetricSample(c: string, matched: bool) returns (alert: bool)
      requires Valid()
      modifies this, buffers.Values
      ensures Valid() && window == old(window)
      ensures history == old(history)[c := old(Samples(c)) + [matched]]
      ensures alert <==> Sustained(window, Samples(c))
      ensures alert <==> |Samples(c)| >= window && 5 * |TruePositions(Samples(c), window)| >= 4 * window
      ensures forall b :: b in buffers.Values && b !in old(buffers.Values) ==> fresh(b)
    {
      if window <= 1 {
        alert := RecordSingle(c, matched);
      } else {
        Ensure(c);
        PushTo(c, matched);
        alert := Check(c);
      }
      SustainedIff(window, Samples(c));
    }

    /** With a window of one sample no buffer is kept. */
    method RecordSingle(c: string, matched: bool) returns (alert: bool)
      requires Valid() && window == 1
      modifies this`history
      ensures Valid()
      ensures history == old(history)[c := old(Samples(c)) + [matched]]
      ensures alert <==> Sustained(window, Samples(c))
    {
      history := history[c := Samples(c) + [matched]];
      SingleSample(old(Samples(c)), matched);
      forall d ensures HasBuffer(d) {
        assert old(HasBuffer(d));
      }
      alert := matched;
    }

    method Ensure(c: string)
      requires Valid() && window > 1
      modifies this
      ensures Valid() && window == old(window) && c in buffers
      ensures history == if c in old(history) then old(history) else old(history)[c := []]
      ensures forall b :: b in buffers.Values && b !in old(buffers.Values) ==> fresh(b)
      ensures old(buffers.Values) <= buffers.Values
    {
      assert HasBuffer(c);
      if c !in buffers {
        var b := new RingBuffer<bool>(window);
        ghost var before := buffers;
        buffers := buffers[c := b];
        history := history[c := []];
        forall d ensures HasBuffer(d) {
          assert old(HasBuffer(d));
        }
        assert forall d :: d in before ==> buffers[d] == before[d];
      }
    }

    method PushTo(c: string, matched: bool)
      requires Valid() && c in buffers && window > 1
      modifies this`history, buffers[c]
      ensures Valid()
      ensures c in old(history) && history == old(history)[c := old(history[c]) + [matched]]
    {
      assert HasBuffer(c);
      buffers[c].Push(matched);
      history := history[c := history[c] + [matched]];
      forall d ensures HasBuffer(d) {
        assert old(HasBuffer(d));
      }
    }

    method Check(c: string) returns (alert: bool)
      requires Valid() && c in buffers
      ensures alert <==> Sustained(window, Samples(c))
    {
      assert HasBuffer(c);
      var n := buffers[c].Len();
      if n < window {
        return false;
      }
      var data := buffers[c].Data();
      var trueCount := 0;
      for i := 0 to |data|
        invariant trueCount == Trues(data[..i])
      {
        assert data[..i + 1][..i] == data[..i];
        if data[i] {
          trueCount := trueCount + 1;
        }
      }
      assert data[..|data|] == data;
      alert := (trueCount as real) / (n as real) >= 0.8;
      FourFifths(trueCount, n);
    }
  }

  lemma SingleSample(samples: seq<bool>, x: bool)
    ensures Sustained(1, samples + [x]) <==> x
  {
  }

  lemma FourFifths(k: nat, n: nat)
    requires n > 0
    ensures (k as real) / (n as real) >= 0.8 <==> 5 * k >= 4 * n
  {
    var q, d := (k as real) / (n as real), n as real;
    assert q * d == k as real;
    TimesPositive(q - 0.8, d);
    assert (q - 0.8) * d == q * d - 0.8 * d;
  }

  lemma TimesPositive(x: real, d: real)
    requires d > 0.0
    ensures x >= 0.0 <==> x * d >= 0.0
  {
  }
}
