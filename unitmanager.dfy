// The daemon's unit manager: the table of module kinds the daemon can build, keyed by class name.

module UnitTable {

  /** A registered module kind: the class's name and an identifier for its type. */
  datatype Unit = Unit(className: string, typeId: nat)

  /**
   * The table left by inserting `units` in order into an empty hash keyed by class name;
   * an insertion under a key already present replaces the earlier value.
   */
  function Table(units: seq<Unit>): map<string, Unit>
  {
    if units == [] then map[]
    else
      var last := units[|units| - 1];
      Table(units[..|units| - 1])[last.className := last]
  }

  /** The keys of the table are exactly the class names of the registered units. */
  lemma {:induction false} TableKeys(units: seq<Unit>, t: string)
    ensures t in Table(units) <==> exists i :: 0 <= i < |units| && units[i].className == t
  {
    if units != [] {
      var init := units[..|units| - 1];
      TableKeys(init, t);
      if t in Table(init) {
        var i :| 0 <= i < |init| && init[i].className == t;
        assert units[i] == init[i];
      }
      if exists i :: 0 <= i < |units| && units[i].className == t {
        var i :| 0 <= i < |units| && units[i].className == t;
        if i < |init| {
          assert init[i] == units[i];
        }
      }
    }
  }

  /**
   * Every value of the table is the unit registered last under its key: it carries that key,
   * and no later unit has the same class name.
   */
  lemma {:induction false} TableLatest(units: seq<Unit>, t: string)
    requires t in Table(units)
    ensures exists j :: 0 <= j < |units| && Table(units)[t] == units[j] && units[j].className == t &&
                        (forall k :: j < k < |units| ==> units[k].className != t)
  {
    var init := units[..|units| - 1];
    var last := units[|units| - 1];
    if last.className == t {
      assert Table(units)[t] == units[|units| - 1];
    } else {
      TableLatest(init, t);
      var j :| 0 <= j < |init| && Table(init)[t] == init[j] && init[j].className == t &&
               (forall k :: j < k < |init| ==> init[k].className != t);
      assert units[j] == init[j];
      assert forall k :: j < k < |units| - 1 ==> units[k] == init[k];
    }
  }

  class UnitManager {
    /** The units the daemon registered at start-up, in registration order. */
    ghost const units: seq<Unit>
    /** The module table: class name to unit. */
    var modules: map<string, Unit>

    ghost predicate Valid()
      reads this
    {
      modules == Table(units)
    }

    /** Builds the table by inserting every registered unit under its class name, in order. */
    constructor (registered: seq<Unit>)
      ensures units == registered && Valid()
    {
      units := registered;
      modules := map[];
      new;
      var i := 0;
      while i < |registered|
        invariant 0 <= i <= |registered| && units == registered
        invariant modules == Table(registered[..i])
      {
        assert registered[..i + 1][..i] == registered[..i];
        modules := modules[registered[i].className := registered[i]];
        i := i + 1;
      }
      assert registered[..i] == registered;
    }

    /** Whether a module kind of class name `kind` was registered. */
    function DoesModuleExist(kind: string): (r: bool)
      requires Valid()
      reads this
      ensures r <==> exists i :: 0 <= i < |units| && units[i].className == kind
    {
      TableKeys(units, kind);
      kind in modules
    }
  }
}
