/** Lengths of the target's EncryptedExtensions: the last eight seen, and their 90th percentile. */
module EeStats {
  import opened Wire
  import opened CertPlan
  import Record

  const RING := 8
  const MIN_SAMPLES := 3
  const SHORTEST := 12
  const LONGEST := 512

  predicate Sane(n: int) { SHORTEST <= n <= LONGEST }

  /** The last samples, at most eight. */
  function Last(history: seq<int>): seq<int> {
    if |history| <= RING then history else history[|history| - RING..]
  }

  predicate Sorted(s: seq<int>) { forall i, j :: 0 <= i < j < |s| ==> s[i] <= s[j] }

  predicate IsMax(s: seq<int>, m: int) { m in s && forall i :: 0 <= i < |s| ==> s[i] <= m }

  method Swap(a: array<int>, i: nat, j: nat)
    requires i < a.Length && j < a.Length
    modifies a
    ensures a[..] == old(a[..])[i := old(a[j])][j := old(a[i])]
    ensures multiset(a[..]) == multiset(old(a[..]))
  {
    a[i], a[j] := a[j], a[i];
  }

  /** Sorted but for the element at j, which may belong further down. */
  predicate Sinking(s: seq<int>, n: nat, j: nat)
    requires n <= |s|
  {
    forall k, l :: 0 <= k < l < n && l != j ==> s[k] <= s[l]
  }

  lemma Sunk(s: seq<int>, n: nat, j: nat)
    requires j < n <= |s| && Sinking(s, n, j) && (j == 0 || s[j - 1] <= s[j])
    ensures Sorted(s[..n])
  {
    forall k, l | 0 <= k < l < n ensures s[k] <= s[l] {
      if l == j && k < j - 1 { assert s[k] <= s[j - 1]; }
    }
  }

  /** Sinks the element at i to its place among the sorted ones before it. */
  method Insert(a: array<int>, i: nat)
    requires i < a.Length && Sorted(a[..i])
    modifies a
    ensures Sorted(a[..i + 1]) && multiset(a[..]) == multiset(old(a[..])) && a[i + 1..] == old(a[i + 1..])
  {
    var j := i;
    assert Sinking(a[..], i + 1, j) by {
      assert forall k :: 0 <= k < i ==> a[..i][k] == a[k];
    }
    while j > 0 && a[j - 1] > a[j]
      invariant 0 <= j <= i && Sinking(a[..], i + 1, j)
      invariant forall k :: j < k <= i ==> a[j] < a[k]
      invariant multiset(a[..]) == multiset(old(a[..])) && a[i + 1..] == old(a[i + 1..])
    {
      ghost var s := a[..];
      Swap(a, j - 1, j);
      j := j - 1;
    }
    Sunk(a[..], i + 1, j);
    assert a[..][..i + 1] == a[..i + 1];
  }

  method Sort(a: array<int>)
    modifies a
    ensures Sorted(a[..]) && multiset(a[..]) == multiset(old(a[..]))
  {
    if a.Length == 0 { return; }
    var i := 1;
    while i < a.Length
      invariant 1 <= i <= a.Length && Sorted(a[..i]) && multiset(a[..]) == multiset(old(a[..]))
    {
      Insert(a, i);
      i := i + 1;
    }
    assert a[..i] == a[..];
  }

  lemma LastIsMax(t: seq<int>, s: seq<int>)
    requires t != [] && Sorted(t) && multiset(t) == multiset(s)
    ensures IsMax(s, t[|t| - 1])
  {
    var m := t[|t| - 1];
    assert m in multiset(t);
    forall i | 0 <= i < |s| ensures s[i] <= m {
      assert s[i] in multiset(s);
      assert s[i] in t;
    }
  }

  /** Where the latest sample kept in slot k comes from. */
  lemma SlotSource(len: nat, k: nat) returns (j: nat)
    requires len >= RING && k < RING
    ensures len - RING <= j < len && j % RING == k
  {
    j := len - RING + (k - len) % RING;
  }

  /** A coalesced flight whose EncryptedExtensions are no longer than a kept sample can be padded. */
  lemma SampledFlightPads(history: seq<int>, longest: int, slots: Record.Slots, p: Plan, ee: bytes, cv: bytes,
      finished: bytes, i: nat)
    requires |Last(history)| >= MIN_SAMPLES && IsMax(Last(history), longest) && i < |Last(history)|
      && |ee| <= Last(history)[i]
    requires ee != [] && ee[0] == Record.ENCRYPTED_EXTENSIONS
    requires |cv| + |finished| <= CV_LEN + FINISHED_LEN + EE_HEADROOM + FLIGHT_SAFETY
    requires Record.Armed(slots, Record.HANDSHAKE) && p.Exact()
    requires var budget := CoalescedBudgetFor(slots[2], Some(longest)); budget > 0 && Fits(Record.COALESCED, p, budget)
    ensures Record.Padding(slots, Record.HANDSHAKE, ee + CertificateMsg([p.leaf] + p.chain).result + cv + finished) >= 0
  {
    CoalescedPadding(slots, p, Some(longest), ee, cv, finished);
  }

  /** A ring of samples; the ghost history lists all that were kept. */
  class Samples {
    const samples: array<int>
    var n: nat
    var idx: nat
    ghost var history: seq<int>

    ghost predicate Valid()
      reads this, samples
    {
      && samples.Length == RING && idx == |history| && n == (if idx < RING then idx else RING)
      && (forall j :: 0 <= j < |history| ==> Sane(history[j]))
      && (forall j :: 0 <= j < |history| && j >= |history| - RING ==> samples[j % RING] == history[j])
    }

    constructor ()
      ensures Valid() && history == [] && fresh(samples)
    {
      samples := new int[RING](_ => 0);
      n, idx, history := 0, 0, [];
    }

    method Note(plain: int)
      requires Valid()
      modifies this, samples
      ensures Valid() && history == if 12 <= plain <= 512 then old(history) + [plain] else old(history)
    {
      if plain < SHORTEST || plain > LONGEST { return; }
      samples[idx % RING] := plain;
      idx := idx + 1;
      if n < RING { n := n + 1; }
      history := history + [plain];
    }

    /** What the slots hold are the last samples. */
    lemma HoldsLast(m: int)
      requires Valid() && n > 0 && IsMax(samples[..n], m)
      ensures IsMax(Last(history), m)
    {
      var last := Last(history);
      var from := |history| - |last|;
      forall i | 0 <= i < |last| ensures last[i] <= m {
        assert last[i] == history[from + i] == samples[..n][(from + i) % RING];
      }
      var k :| 0 <= k < n && samples[..n][k] == m;
      var j := k;
      if idx >= RING { j := SlotSource(idx, k); }
      assert history[j] == m == last[j - from];
    }

    /** With at most eight samples the 90th percentile is the longest of them. */
    method P90() returns (ee: int, count: nat, ok: bool)
      requires Valid()
      ensures count == |Last(history)| && ok == (count >= MIN_SAMPLES)
      ensures count > 0 ==> IsMax(Last(history), ee)
    {
      if n == 0 { return 0, 0, false; }
      var tmp := new int[n];
      var i := 0;
      while i < n
        invariant 0 <= i <= n && forall k :: 0 <= k < i ==> tmp[k] == samples[k]
        modifies tmp
      {
        tmp[i] := samples[i];
        i := i + 1;
      }
      assert tmp[..] == samples[..n];
      Sort(tmp);
      LastIsMax(tmp[..], samples[..n]);
      i := tmp.Length * 9 / 10;
      if i >= tmp.Length { assert false; }
      HoldsLast(tmp[i]);
      return tmp[i], n, n >= MIN_SAMPLES;
    }
  }
}
