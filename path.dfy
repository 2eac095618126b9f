// A data path of the daemon: the container that names its modules and forwards their alerts.

module PathCore {
  import opened Wrappers
  import opened Decimal

  /** The `i`-th default name for a module of kind `kind`: the kind followed by `i` in decimal. */
  function Candidate(kind: string, i: nat): (n: string)
    ensures |n| > |kind| && n[..|kind|] == kind
    ensures forall k :: |kind| <= k < |n| ==> IsDigit(n[k])
    ensures ParseDecimal(n[|kind|..]) == i
  {
    ParseNatToDecimal(i);
    NatToDecimalShape(i);
    var n := kind + NatToDecimal(i);
    assert n[|kind|..] == NatToDecimal(i);
    n
  }

  /** Different numbers give different default names for the same kind. */
  lemma CandidateInjective(kind: string, i: nat, j: nat)
    ensures Candidate(kind, i) == Candidate(kind, j) ==> i == j
  {
    if Candidate(kind, i) == Candidate(kind, j) {
      assert Candidate(kind, i)[|kind|..] == Candidate(kind, j)[|kind|..];
    }
  }

  /**
   * The alert text a path forwards: the path's name, then `:` and the module's name when a
   * module raised it, then `: ` and the message.
   */
  function ComposeAlert(pathName: string, moduleName: Option<string>, msg: string): (r: string)
    ensures |r| >= |pathName| + 2 + |msg|
    ensures r[..|pathName|] == pathName && r[|r| - |msg|..] == msg
    ensures r[|r| - |msg| - 2..|r| - |msg|] == ": "
    ensures moduleName.None? ==> |r| == |pathName| + 2 + |msg|
    ensures moduleName.Some? ==> |r| == |pathName| + 3 + |moduleName.value| + |msg|
    ensures moduleName.Some? ==> r[|pathName|..|pathName| + 1 + |moduleName.value|] == ":" + moduleName.value
  {
    var head := pathName + (if moduleName.Some? then ":" + moduleName.value else "");
    var r := head + ": " + msg;
    assert r[..|pathName|] == pathName;
    assert r[|r| - |msg|..] == msg;
    assert r[|r| - |msg| - 2..|r| - |msg|] == ": ";
    assert moduleName.Some? ==> r[|pathName|..|pathName| + 1 + |moduleName.value|] == ":" + moduleName.value;
    r
  }

  /** The message alone never equals the composed alert: it lacks at least the `: ` separator. */
  lemma AlertLosesContext(pathName: string, moduleName: Option<string>, msg: string)
    ensures ComposeAlert(pathName, moduleName, msg) != msg
  {
    assert |ComposeAlert(pathName, moduleName, msg)| > |msg|;
  }

  /** The numbers `1..i-1` already taken by modules of `kind` under their default names. */
  ghost function Taken(kind: string, i: nat): set<string> {
    set j | 1 <= j < i :: Candidate(kind, j)
  }

  class Path {
    /** The path's name; nothing in the path sets it, so it stays empty. */
    var name: string
    var ready: bool
    var running: bool
    /** The module names `findModule` finds; it finds none, so the set stays empty. */
    var modules: set<string>
    /** The alerts sent to the daemon through `sendAlert`, oldest first. */
    var alerts: seq<string>

    constructor ()
      ensures name == "" && !ready && !running
      ensures modules == {} && alerts == []
    {
      name := "";
      ready := false;
      running := false;
      modules := {};
      alerts := [];
    }

    /**
     * The first default name for a module of kind `kind` that no module of the path uses:
     * `kind` followed by the smallest positive number whose name is free.
     */
    method GetDefaultModuleName(kind: string) returns (n: string)
      ensures n !in modules
      ensures exists i: nat :: 1 <= i && n == Candidate(kind, i) &&
                               (forall j :: 1 <= j < i ==> Candidate(kind, j) in modules)
      ensures modules == {} ==> n == kind + "1"
    {
      var i: nat := 1;
      n := kind + NatToDecimal(i);
      ghost var seen: set<string> := {};
      while n in modules
        invariant 1 <= i && n == Candidate(kind, i)
        invariant seen == Taken(kind, i) && seen <= modules
        invariant |seen| == i - 1
        decreases |modules| - |seen|
      {
        forall j | 1 <= j < i
          ensures Candidate(kind, j) != Candidate(kind, i)
        {
          CandidateInjective(kind, j, i);
        }
        assert Taken(kind, i + 1) == seen + {n};
        seen := seen + {n};
        SubsetSize(seen, modules);
        i := i + 1;
        n := kind + NatToDecimal(i);
      }
      assert forall j :: 1 <= j < i ==> Candidate(kind, j) in Taken(kind, i);
      if modules == {} {
        assert i == 1;
      }
    }

    /** `alert` as written: the composed text is built but the bare message is sent. */
    method AlertAsWritten(msg: string, moduleName: Option<string>)
      modifies this`alerts
      ensures alerts == old(alerts) + [msg]
    {
      var composed := ComposeAlert(name, moduleName, msg);
      alerts := alerts + [msg];
    }

    /** `alert` as evidently intended: the composed text is sent. */
    method Alert(msg: string, moduleName: Option<string>)
      modifies this`alerts
      ensures alerts == old(alerts) + [ComposeAlert(name, moduleName, msg)]
      ensures alerts[|alerts| - 1][..|name|] == name
    {
      alerts := alerts + [ComposeAlert(name, moduleName, msg)];
    }
  }

  lemma SubsetSize<T>(a: set<T>, b: set<T>)
    requires a <= b
    ensures |a| <= |b|
  {
    assert b == a + (b - a);
  }
}
