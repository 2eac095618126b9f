/**
 * `DevMgr`: the registry of live connections. Devices are kept in a list; each new device
 * gets a provisional name `Unknown<n>` from a counter; and while `closeAll` walks the list,
 * the `closing` flag turns the `removeDevice` calls that closing devices make into no-ops.
 */
module DeviceManager {
  import Decimal
  import opened RemDevCore

  /** The provisional name of the `n`-th device added. */
  function ProvisionalName(n: nat): string {
    "Unknown" + Decimal.NatToDecimal(n)
  }

  /** Different counter values give different provisional names. */
  lemma ProvisionalNameInjective(a: nat, b: nat)
    ensures ProvisionalName(a) == ProvisionalName(b) ==> a == b
  {
    if ProvisionalName(a) == ProvisionalName(b) {
      assert ProvisionalName(a)[7..] == Decimal.NatToDecimal(a);
      assert ProvisionalName(b)[7..] == Decimal.NatToDecimal(b);
      Decimal.NatToDecimalInjective(a, b);
    }
  }

  /** `QList::removeOne`: removes the first occurrence of `x`, if there is one. */
  function RemoveFirst<T(==)>(s: seq<T>, x: T): (r: seq<T>)
    ensures x !in s ==> r == s
    ensures x in s ==> |r| == |s| - 1 && multiset(r) == multiset(s) - multiset{x}
  {
    if s == [] then []
    else if s[0] == x then
      assert s == [s[0]] + s[1..];
      s[1..]
    else
      assert s == [s[0]] + s[1..];
      [s[0]] + RemoveFirst(s[1..], x)
  }

  /** The position of the first occurrence of `x` in `s`. */
  function FirstIndex<T(==)>(s: seq<T>, x: T): (i: nat)
    requires x in s
    ensures i < |s| && s[i] == x && x !in s[..i]
  {
    if s[0] == x then 0
    else
      var i := 1 + FirstIndex(s[1..], x);
      assert s[..i] == [s[0]] + s[1..][..i - 1];
      i
  }

  /**
   * Removing `x` takes out exactly its first occurrence: what comes before and after it stays,
   * in the same order.
   */
  lemma {:induction false} RemoveFirstSplices<T>(s: seq<T>, x: T)
    requires x in s
    ensures RemoveFirst(s, x) == s[..FirstIndex(s, x)] + s[FirstIndex(s, x) + 1..]
  {
    if s[0] != x {
      RemoveFirstSplices(s[1..], x);
      var i := FirstIndex(s[1..], x);
      assert FirstIndex(s, x) == i + 1;
      SpliceShift(s, i);
    }
  }

  lemma SpliceShift<T>(s: seq<T>, i: nat)
    requires i + 1 < |s|
    ensures [s[0]] + (s[1..][..i] + s[1..][i + 1..]) == s[..i + 1] + s[i + 2..]
  {
    assert [s[0]] + s[1..][..i] == s[..i + 1];
    assert s[1..][i + 1..] == s[i + 2..];
  }

  /** The transports of a list of devices, which closing those devices may disconnect. */
  function Transports(ds: seq<RemDev>): set<Sockets.Socket> {
    set k, t | 0 <= k < |ds| && t in ds[k].TransportSet() :: t
  }

  /** Since the state `old`, `d` has been closed, with `reason` when it was still open then. */
  twostate predicate ClosedBy(d: RemDev, reason: DisconnectReason)
    reads d
  {
    && d.Valid() && d.closed && old(d.delivered) <= d.delivered
    && d.disconnects == (if old(d.closed) then old(d.disconnects) else [(reason, false)])
  }

  /** Since the state `old`, nothing `close` changes has changed in `d`. */
  twostate predicate NotYetClosed(d: RemDev)
    reads d
  {
    d.Valid() && d.closed == old(d.closed) && d.disconnects == old(d.disconnects) && d.delivered == old(d.delivered)
  }

  class DevMgr {
    var devices: seq<RemDev>
    /** How many provisional names have been handed out. */
    var unregCt: nat
    /** Set while `closeAll` runs. */
    var closing: bool
    /** Every name `addDevice` has returned, oldest first. */
    ghost var issued: seq<string>
    /** Every device `closeAll` has closed, in call order. */
    ghost var closeCalls: seq<RemDev>

    ghost predicate Valid()
      reads this
    {
      && |issued| == unregCt
      && (forall k :: 0 <= k < |issued| ==> issued[k] == ProvisionalName(k + 1))
    }

    constructor ()
      ensures Valid()
      ensures devices == [] && unregCt == 0 && !closing && issued == [] && closeCalls == []
    {
      devices := [];
      unregCt := 0;
      closing := false;
      issued := [];
      closeCalls := [];
    }

    /**
     * `addDevice`: the device joins the end of the list, and the name returned is one no
     * earlier call has returned.
     */
    method AddDevice(dev: RemDev) returns (name: string)
      requires Valid()
      modifies this`devices, this`unregCt, this`issued
      ensures Valid()
      ensures devices == old(devices) + [dev]
      ensures unregCt == old(unregCt) + 1 && name == ProvisionalName(unregCt)
      ensures issued == old(issued) + [name] && name !in old(issued)
    {
      devices := devices + [dev];
      unregCt := unregCt + 1;
      name := "Unknown" + Decimal.NatToDecimal(unregCt);
      forall k | 0 <= k < |issued|
        ensures issued[k] != name
      {
        ProvisionalNameInjective(k + 1, unregCt);
      }
      issued := issued + [name];
    }

    /** `removeDevice`: ignored while closing; otherwise the first occurrence of `dev` leaves the list. */
    method RemoveDevice(dev: RemDev)
      modifies this`devices
      ensures closing ==> devices == old(devices)
      ensures !closing ==> devices == RemoveFirst(old(devices), dev)
    {
      if closing {
        return;
      }
      devices := RemoveFirst(devices, dev);
    }

    /** One turn of the loop of `closeAll`: the `i`-th device is closed and recorded. */
    method CloseNext(i: nat, reason: DisconnectReason)
      requires closing && i < |devices| && devices[i].Valid()
      modifies this`closeCalls, this`devices, {devices[i]}`closed, {devices[i]}`reqs, {devices[i]}`delivered
      modifies {devices[i]}`disconnects, devices[i].TransportSet()`state
      ensures devices == old(devices) && closeCalls == old(closeCalls) + [devices[i]]
      ensures var dev := devices[i];
        && dev.Valid() && dev.closed && old(dev.delivered) <= dev.delivered
        && dev.disconnects == (if old(dev.closed) then old(dev.disconnects) else [(reason, false)])
    {
      var dev := devices[i];
      var emitted := dev.Close(reason, false);
      closeCalls := closeCalls + [dev];
      if emitted {
        RemoveDevice(dev);
      }
    }

    /** The loop of `closeAll`: each listed device is closed once, in list order. */
    method CloseEach(reason: DisconnectReason)
      requires closing && forall k :: 0 <= k < |devices| ==> devices[k].Valid()
      modifies this`closeCalls, this`devices, devices`closed, devices`reqs, devices`delivered
      modifies devices`disconnects, Transports(devices)`state
      ensures devices == old(devices) && closeCalls == old(closeCalls) + devices
      ensures forall d :: d in devices ==> ClosedBy(d, reason)
    {
      var i := 0;
      while i < |devices|
        invariant 0 <= i <= |devices| && devices == old(devices)
        invariant closeCalls == old(closeCalls) + devices[..i]
        invariant forall d :: d in devices[..i] ==> ClosedBy(d, reason)
        invariant forall d :: d in devices && d !in devices[..i] ==> NotYetClosed(d)
      {
        var d := devices[i];
        assert d.TransportSet() <= Transports(devices);
        if d in devices[..i] {
          assert ClosedBy(d, reason);
        } else {
          assert NotYetClosed(d);
        }
        label before:
        CloseNext(i, reason);
        assert ClosedBy(d, reason);
        assert devices[..i + 1] == devices[..i] + [devices[i]];
        forall e | e in devices[..i + 1]
          ensures ClosedBy(e, reason)
        {
          if e != d {
            assert e in devices[..i] && ClosedBy@before(e, reason);
          }
        }
        i := i + 1;
      }
      assert devices[..i] == devices;
    }

    /**
     * `closeAll(reason)`: closes each listed device once, in list order. A device that was
     * still open sends its disconnect notification with `reason`, and the `removeDevice` that
     * notification triggers leaves the list alone. Afterwards the list is empty and `closing`
     * is clear again.
     */
    method CloseAll(reason: DisconnectReason)
      requires forall k :: 0 <= k < |devices| ==> devices[k].Valid()
      modifies this, devices`closed, devices`reqs, devices`delivered, devices`disconnects, Transports(devices)`state
      ensures devices == [] && !closing
      ensures unregCt == old(unregCt) && issued == old(issued)
      ensures closeCalls == old(closeCalls) + old(devices)
      ensures forall d :: d in old(devices) ==>
        && d.Valid() && d.closed && d.reqs == map[]
        && d.disconnects == (if old(d.closed) then old(d.disconnects) else [(reason, false)])
      ensures forall d :: d in old(devices) ==>
        d.outbox == old(d.outbox) && d.logLines == old(d.logLines) && d.lastId == old(d.lastId) &&
        d.registered == old(d.registered) && old(d.delivered) <= d.delivered
    {
      closing := true;
      CloseEach(reason);
      devices := [];
      closing := false;
    }
  }
}
