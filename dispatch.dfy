/**
 * The rotation of the accept loop in `main_impl` (src/main.rs): a `u16` cursor behind a
 * mutex, read, wrapped, used to pick a backend address and incremented, once per
 * accepted client. Each call of `Next` stands for one critical section.
 */
module Dispatch {
  import opened Numbers
  import opened Results
  import opened Io

  /** The first `k` selections of a strict rotation over `addrs`. */
  function Cycle(addrs: seq<string>, k: nat): (r: seq<string>)
    requires |addrs| >= 1
    ensures |r| == k
    ensures forall i :: 0 <= i < k ==> r[i] == addrs[i % |addrs|]
    decreases k
  {
    if k == 0 then [] else Cycle(addrs, k - 1) + [addrs[(k - 1) % |addrs|]]
  }

  /** `q` whole rounds of `addrs`. */
  function Rounds(addrs: seq<string>, q: nat): (r: seq<string>)
    ensures |r| == q * |addrs|
    decreases q
  {
    if q == 0 then [] else Rounds(addrs, q - 1) + addrs
  }

  lemma {:induction false} MulGrows(d: nat, n: nat)
    requires d >= 1
    ensures d * n >= n
    decreases d
  {
    if d > 1 {
      MulGrows(d - 1, n);
      assert d * n == (d - 1) * n + n;
    }
  }

  /** Division with remainder has one answer. */
  lemma DivModUnique(k: nat, n: nat, q: nat, r: nat)
    requires n >= 1 && r < n && k == q * n + r
    ensures k / n == q && k % n == r
  {
    var q', r' := k / n, k % n;
    assert k == q' * n + r';
    if q > q' {
      MulGrows(q - q', n);
    } else if q' > q {
      MulGrows(q' - q, n);
    }
  }

  lemma DivModNext(k: nat, n: nat)
    requires n >= 1
    ensures k % n + 1 < n ==> (k + 1) / n == k / n && (k + 1) % n == k % n + 1
    ensures k % n + 1 == n ==> (k + 1) / n == k / n + 1 && (k + 1) % n == 0
  {
    var q, r := k / n, k % n;
    assert k == q * n + r;
    if r + 1 < n {
      DivModUnique(k + 1, n, q, r + 1);
    } else {
      assert k + 1 == (q + 1) * n + 0;
      DivModUnique(k + 1, n, q + 1, 0);
    }
  }

  /**
   * After `k` selections every backend has been chosen `k / N` times in whole rounds,
   * followed by the first `k % N` backends once more.
   */
  lemma {:induction false} CycleIsRoundsThenPrefix(addrs: seq<string>, k: nat)
    requires |addrs| >= 1
    ensures Cycle(addrs, k) == Rounds(addrs, k / |addrs|) + addrs[..k % |addrs|]
    decreases k
  {
    var n := |addrs|;
    if k > 0 {
      CycleIsRoundsThenPrefix(addrs, k - 1);
      DivModNext(k - 1, n);
      var r := (k - 1) % n;
      assert addrs[..r] + [addrs[r]] == addrs[..r + 1];
      if r + 1 == n {
        assert addrs[..n] == addrs;
        assert addrs[..0] == [];
      }
    }
  }

  /** The cursor position after `k` selections (the wrap happens lazily, before a selection). */
  function CursorAfter(k: nat, n: nat): nat
    requires n >= 1
  {
    if k == 0 then 0 else (k - 1) % n + 1
  }

  class RoundRobin {
    /** `tor_addrs`. */
    const addrs: seq<string>
    /** `the_config.tor.port_count`. */
    const portCount: U16
    /** The `u16` behind `idx_mutex`. */
    var cursor: U16
    /** The number of selections made so far. */
    ghost var selections: nat

    ghost predicate Valid()
      reads this
    {
      && |addrs| == portCount
      && cursor <= portCount
      && (portCount == 0 ==> cursor == 0 && selections == 0)
      && (portCount >= 1 ==> cursor == CursorAfter(selections, portCount))
    }

    /** `Mutex::new(0u16)` beside the address table. */
    constructor (addrs: seq<string>, portCount: U16)
      requires |addrs| == portCount
      ensures Valid()
      ensures this.addrs == addrs && this.portCount == portCount
      ensures cursor == 0 && selections == 0
    {
      this.addrs := addrs;
      this.portCount := portCount;
      cursor := 0;
      selections := 0;
    }

    /**
     * The critical section of the accept loop: wrap the cursor when it is past the
     * last backend, take that backend's address, advance. `port_count - 1` is
     * evaluated in `u16`, so there must be a backend.
     */
    method Next() returns (addr: string)
      requires Valid() && portCount >= 1
      modifies this`cursor, this`selections
      ensures Valid()
      ensures selections == old(selections) + 1
      ensures addr == addrs[old(selections) % portCount]
    {
      DivModNext(selections, portCount);
      if selections > 0 {
        DivModNext(selections - 1, portCount);
      }
      if cursor > portCount - 1 {
        cursor := 0;
      }
      addr := addrs[cursor];
      cursor := cursor + 1;
      selections := selections + 1;
    }

    /**
     * One outcome of `listener.accept()`: an accepted client gets the next backend;
     * a failed accept is only logged and leaves the cursor alone.
     */
    method OnAccept(event: AcceptEvent) returns (chosen: Option<string>)
      requires Valid() && portCount >= 1
      modifies this`cursor, this`selections
      ensures Valid()
      ensures event.AcceptFailed? ==> chosen == None && cursor == old(cursor) && selections == old(selections)
      ensures event.Accepted? ==>
        chosen == Some(addrs[old(selections) % portCount]) && selections == old(selections) + 1
    {
      match event
      case AcceptFailed(_) =>
        chosen := None;
      case Accepted(_) =>
        var addr := Next();
        chosen := Some(addr);
    }

    /**
     * The accept loop over a sequence of accept outcomes, returning the backend given
     * to each accepted client in order (the relay it starts is not modelled). The k-th
     * accepted client overall is sent to `tor_addrs[k % port_count]`.
     */
    method Serve(events: seq<AcceptEvent>) returns (chosen: seq<string>)
      requires Valid() && portCount >= 1
      modifies this`cursor, this`selections
      ensures Valid()
      ensures |chosen| == AcceptCount(events)
      ensures selections == old(selections) + |chosen|
      ensures forall k :: 0 <= k < |chosen| ==> chosen[k] == addrs[(old(selections) + k) % portCount]
      ensures old(selections) == 0 ==> chosen == Cycle(addrs, |chosen|)
    {
      chosen := [];
      for i := 0 to |events|
        invariant Valid()
        invariant |chosen| == AcceptCount(events[..i])
        invariant selections == old(selections) + |chosen|
        invariant forall k :: 0 <= k < |chosen| ==> chosen[k] == addrs[(old(selections) + k) % portCount]
      {
        AcceptedSnoc(events, i);
        var a := OnAccept(events[i]);
        if a.Some? {
          chosen := chosen + [a.value];
        }
      }
      assert events[..|events|] == events;
    }
  }

  /** One result of `listener.accept()`; the client is named by a number. */
  datatype AcceptEvent = Accepted(client: nat) | AcceptFailed(error: IoError)

  /** The number of successful accepts. */
  function AcceptCount(events: seq<AcceptEvent>): nat
    decreases |events|
  {
    if events == [] then 0
    else AcceptCount(events[..|events| - 1]) + (if events[|events| - 1].Accepted? then 1 else 0)
  }

  lemma AcceptedSnoc(events: seq<AcceptEvent>, i: nat)
    requires i < |events|
    ensures AcceptCount(events[..i + 1]) == AcceptCount(events[..i]) + (if events[i].Accepted? then 1 else 0)
  {
    assert events[..i + 1][..i] == events[..i];
  }
}
