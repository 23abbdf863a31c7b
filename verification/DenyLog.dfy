/**
 The bounded window of recent denials (vs/src/deny_log.rs), refined to a function of the whole
 history of denials.
 */
module DenyLog {
  import opened Text
  import opened Attributes

  const DENY_LOG_SIZE: nat := 500

  datatype DenyCode =
    | NoReason | NoMatch | Denied | SourceNotFound | DestNotFound
    | SourceAuthError | DestAuthError | QuotaExceeded | NoRoute

  /** What denials are collapsed on. The source port is not part of it. */
  datatype FlowKey = FlowKey(srcAddr: Addr, dstAddr: Addr, protocol: nat, dstPort: nat, code: DenyCode)

  /** One denial as it happened. */
  datatype Denial = Denial(key: FlowKey, atMs: nat)

  datatype Entry = Entry(key: FlowKey, count: nat, lastMs: nat)

  // ------------------------------------------------- the window as a function of history

  /** Position `i` is the last occurrence of its key. */
  predicate IsLast(h: seq<Denial>, i: nat)
    requires i < |h|
  {
    forall j :: i < j < |h| ==> h[j].key != h[i].key
  }

  /** The distinct keys among the denials from `i` on, ordered by last occurrence. */
  function LastOccurrences(h: seq<Denial>, i: nat): seq<Denial>
    requires i <= |h|
    decreases |h| - i
  {
    if i == |h| then []
    else (if IsLast(h, i) then [h[i]] else []) + LastOccurrences(h, i + 1)
  }

  function Newest<T>(n: nat, s: seq<T>): seq<T> { if |s| <= n then s else s[|s| - n..] }

  /** The most recently denied distinct keys, at most `n`, oldest first. */
  function Recents(n: nat, h: seq<Denial>): seq<Denial> { Newest(n, LastOccurrences(h, 0)) }

  predicate HasKey(s: seq<Denial>, k: FlowKey) { exists d :: d in s && d.key == k }

  /** How often a key was denied since it last entered the window. */
  function Tally(n: nat, h: seq<Denial>, k: FlowKey): nat {
    if h == [] then 0
    else
      var before, d := h[..|h| - 1], h[|h| - 1];
      if d.key != k then Tally(n, before, k)
      else 1 + if HasKey(Recents(n, before), k) then Tally(n, before, k) else 0
  }

  function EntryFor(n: nat, h: seq<Denial>, d: Denial): Entry { Entry(d.key, Tally(n, h, d.key), d.atMs) }

  function Window(n: nat, h: seq<Denial>): seq<Entry> {
    var r := Recents(n, h);
    seq(|r|, i requires 0 <= i < |r| => EntryFor(n, h, r[i]))
  }

  // -------------------------------------------------------------- one step of the deque

  /** The first position of a key, or the length when it is not there. */
  function Position(s: seq<Entry>, k: FlowKey): (i: nat)
    ensures i <= |s| && (i < |s| ==> s[i].key == k)
    ensures forall j :: 0 <= j < i ==> s[j].key != k
  {
    if s == [] || s[0].key == k then 0
    else
      assert forall j :: 1 <= j < |s| ==> s[j] == s[1..][j - 1];
      1 + Position(s[1..], k)
  }

  function Record(n: nat, s: seq<Entry>, d: Denial): seq<Entry> {
    var i := Position(s, d.key);
    if i < |s| then s[..i] + s[i + 1..] + [Entry(d.key, s[i].count + 1, d.atMs)]
    else Newest(n, s + [Entry(d.key, 1, d.atMs)])
  }

  // ------------------------------------------------------------------ last occurrences

  function DropKey(s: seq<Denial>, k: FlowKey): seq<Denial> {
    if s == [] then [] else (if s[0].key == k then [] else [s[0]]) + DropKey(s[1..], k)
  }

  lemma {:induction false} DropConcat(a: seq<Denial>, b: seq<Denial>, k: FlowKey)
    ensures DropKey(a + b, k) == DropKey(a, k) + DropKey(b, k)
  {
    if a == [] {
      assert a + b == b;
    } else {
      assert (a + b)[1..] == a[1..] + b;
      DropConcat(a[1..], b, k);
    }
  }

  lemma {:induction false} DropAbsent(s: seq<Denial>, k: FlowKey)
    requires forall d :: d in s ==> d.key != k
    ensures DropKey(s, k) == s
  {
    if s != [] {
      assert s[0] in s;
      DropAbsent(s[1..], k);
    }
  }

  lemma LastGrows(h: seq<Denial>, d: Denial, i: nat)
    requires i < |h|
    ensures IsLast(h + [d], i) <==> IsLast(h, i) && h[i].key != d.key
  {
    var g := h + [d];
    assert g[|h|] == d && forall j :: 0 <= j < |h| ==> g[j] == h[j];
    if IsLast(g, i) {
      forall j | i < j < |h| ensures h[j].key != h[i].key { assert g[j] == h[j]; }
    }
  }

  /** A new denial moves its key to the end and leaves the rest in order. */
  lemma {:induction false} LastOccurrencesGrow(h: seq<Denial>, d: Denial, i: nat)
    requires i <= |h|
    ensures LastOccurrences(h + [d], i) == DropKey(LastOccurrences(h, i), d.key) + [d]
    decreases |h| - i
  {
    var g := h + [d];
    if i == |h| {
      assert IsLast(g, i) && LastOccurrences(g, i + 1) == [];
    } else {
      LastOccurrencesGrow(h, d, i + 1);
      LastGrows(h, d, i);
      var head := if IsLast(h, i) then [h[i]] else [];
      DropConcat(head, LastOccurrences(h, i + 1), d.key);
    }
  }

  predicate KeysDistinct(s: seq<Denial>) { forall i, j :: 0 <= i < j < |s| ==> s[i].key != s[j].key }

  /** Each key that was ever denied appears once. */
  lemma {:induction false} LastOccurrencesDistinct(h: seq<Denial>, i: nat)
    requires i <= |h|
    ensures KeysDistinct(LastOccurrences(h, i))
    ensures forall d :: d in LastOccurrences(h, i) ==> exists j :: i <= j < |h| && h[j] == d
    ensures forall j :: i <= j < |h| ==> HasKey(LastOccurrences(h, i), h[j].key)
    decreases |h| - i
  {
    if i < |h| {
      LastOccurrencesDistinct(h, i + 1);
      var rest, all := LastOccurrences(h, i + 1), LastOccurrences(h, i);
      forall j | i <= j < |h| ensures HasKey(all, h[j].key) {
        if j == i && IsLast(h, i) {
          assert h[i] in all;
        } else {
          var m := if j > i then j else var m :| i < m < |h| && h[m].key == h[i].key; m;
          var d :| d in rest && d.key == h[m].key;
          assert d in all;
        }
      }
      if IsLast(h, i) {
        forall m | 0 <= m < |rest| ensures rest[m].key != h[i].key {
          assert rest[m] in rest;
        }
      }
    }
  }

  // ------------------------------------------------------------------- refinement

  lemma NewestOfConcat<T>(n: nat, a: seq<T>, b: seq<T>)
    requires a == [] || |b| >= n
    ensures Newest(n, a + b) == Newest(n, b)
  {}

  lemma {:induction false} DropAt(s: seq<Denial>, k: FlowKey, p: nat)
    requires KeysDistinct(s) && p < |s| && s[p].key == k
    ensures DropKey(s, k) == s[..p] + s[p + 1..]
  {
    var rest := s[1..];
    if p == 0 {
      forall d | d in rest ensures d.key != k {
        var j :| 0 <= j < |rest| && rest[j] == d;
        assert s[j + 1] == d;
      }
      DropAbsent(rest, k);
    } else {
      DropAt(rest, k, p - 1);
      assert s[..p] == [s[0]] + rest[..p - 1] && rest[p..] == s[p + 1..];
    }
  }

  lemma NewestCut<T>(n: nat, all: seq<T>, i: nat, x: T)
    requires i < |Newest(n, all)|
    ensures var r := Newest(n, all); var at := |all| - |r| + i;
      Newest(n, all[..at] + all[at + 1..] + [x]) == r[..i] + r[i + 1..] + [x]
  {}

  lemma NewestRepeat(n: nat, all: seq<Denial>, d: Denial, i: nat)
    requires KeysDistinct(all) && i < |Newest(n, all)| && Newest(n, all)[i].key == d.key
    ensures var r := Newest(n, all); Newest(n, DropKey(all, d.key) + [d]) == r[..i] + r[i + 1..] + [d]
  {
    DropAt(all, d.key, |all| - |Newest(n, all)| + i);
    NewestCut(n, all, i, d);
  }

  /** A repeat inside the window: its key moves to the end, nothing is evicted. */
  lemma RecentsRepeat(n: nat, h: seq<Denial>, d: Denial, i: nat)
    requires i < |Recents(n, h)| && Recents(n, h)[i].key == d.key
    ensures var r := Recents(n, h); Recents(n, h + [d]) == r[..i] + r[i + 1..] + [d]
  {
    LastOccurrencesGrow(h, d, 0);
    LastOccurrencesDistinct(h, 0);
    NewestRepeat(n, LastOccurrences(h, 0), d, i);
  }

  /** A key the window does not hold enters at the end, pushing out the oldest when full. */
  lemma RecentsEnter(n: nat, h: seq<Denial>, d: Denial)
    requires forall e :: e in Recents(n, h) ==> e.key != d.key
    ensures Recents(n, h + [d]) == Newest(n, Recents(n, h) + [d])
  {
    var all, r := LastOccurrences(h, 0), Recents(n, h);
    var old_ := all[..|all| - |r|];
    LastOccurrencesGrow(h, d, 0);
    assert all == old_ + r;
    DropConcat(old_, r, d.key);
    DropAbsent(r, d.key);
    assert LastOccurrences(h + [d], 0) == DropKey(old_, d.key) + (r + [d]);
    NewestOfConcat(n, DropKey(old_, d.key), r + [d]);
  }

  lemma TallyGrows(n: nat, h: seq<Denial>, d: Denial, k: FlowKey)
    ensures Tally(n, h + [d], k) ==
              if d.key != k then Tally(n, h, k)
              else 1 + if HasKey(Recents(n, h), k) then Tally(n, h, k) else 0
  {}

  lemma OthersKeepEntry(n: nat, h: seq<Denial>, d: Denial, e: Denial)
    requires e.key != d.key
    ensures EntryFor(n, h + [d], e) == EntryFor(n, h, e)
  {}

  lemma RepeatRefines(n: nat, h: seq<Denial>, d: Denial, i: nat)
    requires i < |Recents(n, h)| && Recents(n, h)[i].key == d.key
    ensures var w := Window(n, h);
      Window(n, h + [d]) == w[..i] + w[i + 1..] + [Entry(d.key, w[i].count + 1, d.atMs)]
  {
    var r, w, r' := Recents(n, h), Window(n, h), Recents(n, h + [d]);
    RecentsRepeat(n, h, d, i);
    RecentsDistinct(n, h);
    var w' := w[..i] + w[i + 1..] + [Entry(d.key, w[i].count + 1, d.atMs)];
    forall j | 0 <= j < |r'| ensures EntryFor(n, h + [d], r'[j]) == w'[j] {
      if j == |r'| - 1 {
        assert r[i] in r;
        TallyGrows(n, h, d, d.key);
      } else {
        OthersKeepEntry(n, h, d, r'[j]);
      }
    }
  }

  lemma EnterRefines(n: nat, h: seq<Denial>, d: Denial)
    requires n > 0 && forall e :: e in Recents(n, h) ==> e.key != d.key
    ensures Window(n, h + [d]) == Newest(n, Window(n, h) + [Entry(d.key, 1, d.atMs)])
  {
    var r, w, r' := Recents(n, h), Window(n, h), Recents(n, h + [d]);
    RecentsEnter(n, h, d);
    var w' := w + [Entry(d.key, 1, d.atMs)];
    var gone := |r| + 1 - |r'|;
    forall j | 0 <= j < |r'| ensures EntryFor(n, h + [d], r'[j]) == w'[gone + j] {
      if gone + j < |r| {
        assert r'[j] == r[gone + j];
        OthersKeepEntry(n, h, d, r'[j]);
      } else {
        TallyGrows(n, h, d, d.key);
      }
    }
  }

  /** The deque is the window: recording a denial is appending it to the history. */
  lemma RecordRefinesHistory(n: nat, h: seq<Denial>, d: Denial)
    requires n > 0
    ensures Record(n, Window(n, h), d) == Window(n, h + [d])
  {
    var r, w := Recents(n, h), Window(n, h);
    var i := Position(w, d.key);
    if i < |w| {
      RepeatRefines(n, h, d, i);
    } else {
      forall e | e in r ensures e.key != d.key {
        var j :| 0 <= j < |r| && r[j] == e;
        assert w[j].key == e.key;
      }
      EnterRefines(n, h, d);
    }
  }

  lemma RecentsDistinct(n: nat, h: seq<Denial>)
    ensures KeysDistinct(Recents(n, h))
  {
    LastOccurrencesDistinct(h, 0);
    var all, r := LastOccurrences(h, 0), Recents(n, h);
    var off := |all| - |r|;
    forall i, j | 0 <= i < j < |r| ensures r[i].key != r[j].key {
      assert r[i] == all[off + i] && r[j] == all[off + j];
    }
  }

  /** The window holds at most `n` entries, one per key. */
  lemma WindowShape(n: nat, h: seq<Denial>)
    ensures |Window(n, h)| <= n
    ensures forall i, j :: 0 <= i < j < |Window(n, h)| ==> Window(n, h)[i].key != Window(n, h)[j].key
  {
    RecentsDistinct(n, h);
  }

  // ------------------------------------------------------------------ conservation

  function Total(s: seq<Entry>): nat { if s == [] then 0 else Total(s[..|s| - 1]) + s[|s| - 1].count }

  lemma {:induction false} TotalConcat(a: seq<Entry>, b: seq<Entry>)
    ensures Total(a + b) == Total(a) + Total(b)
    decreases |b|
  {
    if b == [] {
      assert a + b == a;
    } else {
      assert (a + b)[..|a + b| - 1] == a + b[..|b| - 1];
      TotalConcat(a, b[..|b| - 1]);
    }
  }

  /** The counts that left the window, over the whole history. */
  function Evicted(n: nat, h: seq<Denial>): nat {
    if h == [] then 0
    else
      var before, d := h[..|h| - 1], h[|h| - 1];
      var w := Window(n, before);
      Evicted(n, before) +
        if Position(w, d.key) < |w| || |w| < n || w == [] then 0 else w[0].count
  }

  lemma TotalOfRepeat(w: seq<Entry>, i: nat, e: Entry)
    requires i < |w| && e.count == w[i].count + 1
    ensures Total(w[..i] + w[i + 1..] + [e]) == Total(w) + 1
  {
    var a, b := w[..i], w[i + 1..];
    assert w == a + ([w[i]] + b);
    TotalConcat(a, [w[i]] + b);
    TotalConcat([w[i]], b);
    TotalConcat(a, b);
    TotalConcat(a + b, [e]);
  }

  lemma TotalOfLast(w: seq<Entry>, e: Entry)
    ensures Total(w + [e]) == Total(w) + e.count
  {
    assert (w + [e])[..|w|] == w;
  }

  lemma TotalOfFirst(w: seq<Entry>)
    requires w != []
    ensures Total(w) == w[0].count + Total(w[1..])
  {
    assert w == [w[0]] + w[1..];
    TotalConcat([w[0]], w[1..]);
    TotalOfLast([], w[0]);
    assert [] + [w[0]] == [w[0]];
  }

  lemma NewestOfFull<T>(n: nat, s: seq<T>, x: T)
    requires 0 < n == |s|
    ensures Newest(n, s + [x]) == s[1..] + [x]
  {}

  lemma TotalOfEntry(n: nat, w: seq<Entry>, e: Entry)
    requires 0 < n && |w| <= n && e.count == 1
    ensures Total(Newest(n, w + [e])) + (if |w| < n then 0 else w[0].count) == Total(w) + 1
  {
    TotalOfLast(w, e);
    if |w| == n {
      NewestOfFull(n, w, e);
      TotalOfLast(w[1..], e);
      TotalOfFirst(w);
    }
  }

  /** No denial goes uncounted: live counts and evicted counts add up to the history. */
  lemma {:induction false} CountsAreConserved(n: nat, h: seq<Denial>)
    requires n > 0
    ensures Total(Window(n, h)) + Evicted(n, h) == |h|
    decreases |h|
  {
    if h == [] {
      assert LastOccurrences(h, 0) == [];
    } else {
      var before, d := h[..|h| - 1], h[|h| - 1];
      assert h == before + [d];
      CountsAreConserved(n, before);
      RecordRefinesHistory(n, before, d);
      WindowShape(n, before);
      var w := Window(n, before);
      var i := Position(w, d.key);
      if i < |w| {
        TotalOfRepeat(w, i, Entry(d.key, w[i].count + 1, d.atMs));
      } else {
        TotalOfEntry(n, w, Entry(d.key, 1, d.atMs));
      }
    }
  }

  // ------------------------------------------------------------------------ reading

  predicate Since(e: Entry, since: Option<nat>) { since.None? || e.lastMs >= since.value }

  /** Newest first, keeping what is recent enough, however the timestamps are ordered. */
  function NewestFirst(s: seq<Entry>, since: Option<nat>): seq<Entry> {
    if s == [] then []
    else (if Since(s[|s| - 1], since) then [s[|s| - 1]] else []) + NewestFirst(s[..|s| - 1], since)
  }

  lemma {:induction false} ReadingMissesNothing(s: seq<Entry>, since: Option<nat>)
    ensures forall e :: e in NewestFirst(s, since) <==> e in s && Since(e, since)
    decreases |s|
  {
    if s != [] {
      ReadingMissesNothing(s[..|s| - 1], since);
      assert s == s[..|s| - 1] + [s[|s| - 1]];
    }
  }

  function Limited(s: seq<Entry>, limit: Option<nat>): seq<Entry> {
    if limit.Some? && limit.value < |s| then s[..limit.value] else s
  }

  // --------------------------------------------------------------------- the log

  class Log {
    var entries: seq<Entry>
    ghost var history: seq<Denial>

    /** The entries are the window of everything ever recorded. */
    ghost predicate Valid()
      reads this
    {
      entries == Window(DENY_LOG_SIZE, history)
    }

    constructor ()
      ensures Valid() && history == []
    {
      entries, history := [], [];
      assert LastOccurrences([], 0) == [];
    }

    method RecordAtMs(key: FlowKey, nowMs: nat)
      requires Valid()
      modifies this
      ensures Valid() && history == old(history) + [Denial(key, nowMs)]
    {
      ghost var d := Denial(key, nowMs);
      RecordRefinesHistory(DENY_LOG_SIZE, history, d);
      var deque := entries;
      var i := 0;
      while i < |deque| && deque[i].key != key
        invariant i <= Position(deque, key)
      {
        i := i + 1;
      }
      if i < |deque| {
        var hit := deque[i];
        deque := deque[..i] + deque[i + 1..] + [hit.(count := hit.count + 1, lastMs := nowMs)];
      } else {
        deque := deque + [Entry(key, 1, nowMs)];
        deque := PopFront(deque);
      }
      entries, history := deque, history + [d];
    }

    /** The eviction loop. */
    static method PopFront(full: seq<Entry>) returns (deque: seq<Entry>)
      ensures deque == Newest(DENY_LOG_SIZE, full)
    {
      deque := full;
      while |deque| > DENY_LOG_SIZE
        invariant |deque| >= DENY_LOG_SIZE || deque == full
        invariant |deque| <= |full| && deque == full[|full| - |deque|..]
      {
        deque := deque[1..];
      }
    }

    method Recent(since: Option<nat>, limit: Option<nat>) returns (r: seq<Entry>)
      requires Valid()
      ensures r == Limited(NewestFirst(Window(DENY_LOG_SIZE, history), since), limit)
    {
      r := Scan(entries, since, limit);
    }

    /** The iterator chain: reverse, filter, take. */
    static method Scan(s: seq<Entry>, since: Option<nat>, limit: Option<nat>) returns (r: seq<Entry>)
      ensures r == Limited(NewestFirst(s, since), limit)
    {
      r := [];
      var i := |s|;
      assert s[..i] == s && [] + NewestFirst(s, since) == NewestFirst(s, since);
      while i > 0 && (limit.None? || |r| < limit.value)
        invariant 0 <= i <= |s|
        invariant r + NewestFirst(s[..i], since) == NewestFirst(s, since)
        invariant limit.Some? ==> |r| <= limit.value
      {
        i := i - 1;
        ScanStep(s, since, i, r);
        if Since(s[i], since) { r := r + [s[i]]; }
      }
      PrefixOfSum(r, NewestFirst(s[..i], since));
    }
  }

  lemma ScanStep(s: seq<Entry>, since: Option<nat>, i: nat, r: seq<Entry>)
    requires i < |s|
    ensures (if Since(s[i], since) then r + [s[i]] else r) + NewestFirst(s[..i], since)
      == r + NewestFirst(s[..i + 1], since)
  {
    assert s[..i + 1][..i] == s[..i];
    var rest := NewestFirst(s[..i], since);
    assert (r + [s[i]]) + rest == r + ([s[i]] + rest) && [] + rest == rest;
  }

  lemma PrefixOfSum(r: seq<Entry>, rest: seq<Entry>)
    ensures (r + rest)[..|r|] == r && (rest == [] ==> r + rest == r)
  {}
}
