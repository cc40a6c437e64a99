/**
 * The registry of live WebSocket connections. Whether a send to a handle
 * fails is an oracle: the set of handles whose sends fail.
 */
module WsManager {
  /** A WebSocket connection, compared by identity. */
  type Handle = nat

  /** One attempted `send_text` of a message to a handle; the message's content is left open. */
  datatype Delivery<M> = Delivery(handle: Handle, message: M)

  /** `list.remove(h)`: drops the first occurrence of `h`; a list without `h` is returned as is. */
  function RemoveFirst(s: seq<Handle>, h: Handle): (r: seq<Handle>)
    ensures h !in s ==> r == s
    ensures h in s ==> |r| == |s| - 1
  {
    if |s| == 0 then s
    else if s[0] == h then s[1..]
    else [s[0]] + RemoveFirst(s[1..], h)
  }

  /** `list.remove` takes away one copy of the handle and keeps every other handle. */
  lemma {:induction false} RemoveFirstMultiset(s: seq<Handle>, h: Handle)
    ensures multiset(RemoveFirst(s, h)) == multiset(s) - multiset{h}
  {
    if |s| > 0 {
      assert s == [s[0]] + s[1..];
      RemoveFirstMultiset(s[1..], h);
    }
  }

  /** `list.remove` cuts out the first occurrence and keeps the other handles in their order. */
  lemma {:induction false} RemoveFirstShape(s: seq<Handle>, h: Handle, i: nat)
    requires i < |s| && s[i] == h && h !in s[..i]
    ensures RemoveFirst(s, h) == s[..i] + s[i + 1..]
    decreases i
  {
    if i > 0 {
      assert s[0] in s[..i];
      assert s[1..][..i - 1] == s[1..i];
      RemoveFirstShape(s[1..], h, i - 1);
      assert s[..i] == [s[0]] + s[1..i];
    }
  }

  /** The handles of `s` whose send succeeds, in their order in `s`. */
  function Survivors(s: seq<Handle>, failing: set<Handle>): (r: seq<Handle>)
    ensures |r| <= |s|
  {
    if |s| == 0 then []
    else if s[0] in failing then Survivors(s[1..], failing)
    else [s[0]] + Survivors(s[1..], failing)
  }

  /** The handles of `s` whose send fails, in their order in `s`: the `disconnected` list. */
  function Casualties(s: seq<Handle>, failing: set<Handle>): (r: seq<Handle>)
    ensures |r| <= |s|
  {
    if |s| == 0 then []
    else if s[0] in failing then [s[0]] + Casualties(s[1..], failing)
    else Casualties(s[1..], failing)
  }

  /** A handle survives exactly when it was registered and its send succeeded. */
  lemma {:induction false} SurvivorsMembers(s: seq<Handle>, failing: set<Handle>, h: Handle)
    ensures h in Survivors(s, failing) <==> h in s && h !in failing
  {
    if |s| > 0 {
      SurvivorsMembers(s[1..], failing, h);
      assert s == [s[0]] + s[1..];
    }
  }

  /** A handle is collected exactly when it was registered and its send failed. */
  lemma {:induction false} CasualtiesMembers(s: seq<Handle>, failing: set<Handle>, h: Handle)
    ensures h in Casualties(s, failing) <==> h in s && h in failing
  {
    if |s| > 0 {
      CasualtiesMembers(s[1..], failing, h);
      assert s == [s[0]] + s[1..];
    }
  }

  /** `s` with its first `n` failing handles removed: the registry part-way through the clean-up pass. */
  function Purge(s: seq<Handle>, failing: set<Handle>, n: nat): seq<Handle> {
    if |s| == 0 then []
    else if s[0] in failing && n > 0 then Purge(s[1..], failing, n - 1)
    else [s[0]] + Purge(s[1..], failing, n)
  }

  /** Filtering keeps relative order: it distributes over concatenation. */
  lemma {:induction false} SurvivorsAppend(a: seq<Handle>, b: seq<Handle>, failing: set<Handle>)
    ensures Survivors(a + b, failing) == Survivors(a, failing) + Survivors(b, failing)
  {
    if |a| > 0 {
      assert (a + b)[1..] == a[1..] + b;
      SurvivorsAppend(a[1..], b, failing);
    } else {
      assert a + b == b;
    }
  }

  lemma {:induction false} CasualtiesAppend(a: seq<Handle>, b: seq<Handle>, failing: set<Handle>)
    ensures Casualties(a + b, failing) == Casualties(a, failing) + Casualties(b, failing)
  {
    if |a| > 0 {
      assert (a + b)[1..] == a[1..] + b;
      CasualtiesAppend(a[1..], b, failing);
    } else {
      assert a + b == b;
    }
  }

  /** Removing nothing leaves the list as it is. */
  lemma {:induction false} PurgeNone(s: seq<Handle>, failing: set<Handle>)
    ensures Purge(s, failing, 0) == s
  {
    if |s| > 0 {
      PurgeNone(s[1..], failing);
    }
  }

  /** Removing a handle other than the head leaves the head in front. */
  lemma RemoveFirstBehindHead(x: Handle, p: seq<Handle>, h: Handle)
    requires x != h
    ensures RemoveFirst([x] + p, h) == [x] + RemoveFirst(p, h)
  {
    assert ([x] + p)[1..] == p;
  }

  /** Every collected casualty is a failing handle. */
  lemma CasualtyFails(s: seq<Handle>, failing: set<Handle>, j: nat)
    requires j < |Casualties(s, failing)|
    ensures Casualties(s, failing)[j] in failing
  {
    CasualtiesMembers(s, failing, Casualties(s, failing)[j]);
  }

  /**
   * One step of the clean-up pass: removing the first occurrence of the next
   * collected casualty removes exactly the next failing handle of the list.
   */
  lemma {:induction false} PurgeStep(s: seq<Handle>, failing: set<Handle>, j: nat)
    requires j < |Casualties(s, failing)|
    ensures RemoveFirst(Purge(s, failing, j), Casualties(s, failing)[j]) == Purge(s, failing, j + 1)
  {
    var tail := s[1..];
    if s[0] in failing {
      assert Casualties(s, failing) == [s[0]] + Casualties(tail, failing);
      if j == 0 {
        PurgeNone(s, failing);
        PurgeNone(tail, failing);
        assert Purge(s, failing, 1) == Purge(tail, failing, 0);
      } else {
        assert Casualties(s, failing)[j] == Casualties(tail, failing)[j - 1];
        assert Purge(s, failing, j) == Purge(tail, failing, j - 1);
        assert Purge(s, failing, j + 1) == Purge(tail, failing, j);
        PurgeStep(tail, failing, j - 1);
      }
    } else {
      assert Casualties(s, failing) == Casualties(tail, failing);
      var x := Casualties(tail, failing)[j];
      CasualtyFails(tail, failing, j);
      assert Purge(s, failing, j) == [s[0]] + Purge(tail, failing, j);
      assert Purge(s, failing, j + 1) == [s[0]] + Purge(tail, failing, j + 1);
      RemoveFirstBehindHead(s[0], Purge(tail, failing, j), x);
      PurgeStep(tail, failing, j);
    }
  }

  /** Once every collected casualty is removed, exactly the survivors remain. */
  lemma {:induction false} PurgeAll(s: seq<Handle>, failing: set<Handle>)
    ensures Purge(s, failing, |Casualties(s, failing)|) == Survivors(s, failing)
  {
    if |s| > 0 {
      PurgeAll(s[1..], failing);
    }
  }

  /** A handle whose send failed is not sent the next broadcast. */
  lemma DroppedHandleGetsNoFurtherBroadcast(s: seq<Handle>, failing: set<Handle>, h: Handle)
    requires h in failing
    ensures h !in Survivors(s, failing)
  {
    SurvivorsMembers(s, failing, h);
  }

  class ConnectionManager {
    var activeConnections: seq<Handle>

    constructor ()
      ensures activeConnections == []
    {
      activeConnections := [];
    }

    /** `connect`: the accepted handle goes at the end; nothing else changes. */
    method Connect(h: Handle)
      modifies this
      ensures activeConnections == old(activeConnections) + [h]
    {
      activeConnections := activeConnections + [h];
    }

    /** `disconnect`: removes the handle if present, otherwise leaves the list unchanged. */
    method Disconnect(h: Handle)
      modifies this
      ensures activeConnections == RemoveFirst(old(activeConnections), h)
      ensures h !in old(activeConnections) ==> activeConnections == old(activeConnections)
    {
      if h in activeConnections {
        activeConnections := RemoveFirst(activeConnections, h);
      }
    }

    /**
     * `send_personal_message`: one send to `h`; when it fails, `h` is
     * disconnected and no other handle is touched. The failure is not raised.
     */
    method SendPersonalMessage<M>(message: M, h: Handle, fails: bool) returns (attempt: Delivery<M>)
      modifies this
      ensures attempt == Delivery(h, message)
      ensures activeConnections == if fails then RemoveFirst(old(activeConnections), h) else old(activeConnections)
    {
      attempt := Delivery(h, message);
      if fails {
        Disconnect(h);
      }
    }

    /**
     * `broadcast`: one send to every handle in list order, while the list is
     * left alone; then every handle whose send failed is removed. Failures are
     * not raised.
     */
    method Broadcast<M>(message: M, failing: set<Handle>) returns (sends: seq<Delivery<M>>)
      modifies this
      ensures |sends| == |old(activeConnections)|
      ensures forall k :: 0 <= k < |sends| ==> sends[k] == Delivery(old(activeConnections)[k], message)
      ensures activeConnections == Survivors(old(activeConnections), failing)
    {
      var disconnected: seq<Handle> := [];
      sends := [];
      var i := 0;
      while i < |activeConnections|
        invariant 0 <= i <= |activeConnections|
        invariant activeConnections == old(activeConnections)
        invariant |sends| == i
        invariant forall k :: 0 <= k < i ==> sends[k] == Delivery(activeConnections[k], message)
        invariant disconnected == Casualties(activeConnections[..i], failing)
      {
        var connection := activeConnections[i];
        sends := sends + [Delivery(connection, message)];
        if connection in failing {
          disconnected := disconnected + [connection];
        }
        CasualtiesAppend(activeConnections[..i], [connection], failing);
        assert activeConnections[..i + 1] == activeConnections[..i] + [connection];
        i := i + 1;
      }
      assert activeConnections[..i] == activeConnections;
      ghost var before := activeConnections;
      PurgeNone(before, failing);
      var j := 0;
      while j < |disconnected|
        invariant 0 <= j <= |disconnected|
        invariant activeConnections == Purge(before, failing, j)
      {
        PurgeStep(before, failing, j);
        Disconnect(disconnected[j]);
        j := j + 1;
      }
      PurgeAll(before, failing);
    }
  }
}
