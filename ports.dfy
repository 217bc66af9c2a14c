/**
 * Name-based lookups over the port table and an adjacency row. Ports are identified by
 * position; a name resolves to its FIRST occurrence, so a later port with the same name is
 * never reached through a name.
 */
module Ports {
  import opened Schedule

  /** The smallest index whose port has this name, or -1 when none has. */
  function PortIndex(ports: seq<Port>, name: string): (i: int)
    ensures -1 <= i < |ports|
    ensures 0 <= i ==> ports[i].name == name
    ensures i == -1 <==> forall j :: 0 <= j < |ports| ==> ports[j].name != name
  {
    if ports == [] then -1
    else if ports[0].name == name then 0
    else
      var rest := PortIndex(ports[1..], name);
      if rest == -1 then -1 else rest + 1
  }

  /** No port before the one a name resolves to has that name. */
  lemma {:induction false} PortIndexFirst(ports: seq<Port>, name: string)
    ensures forall j :: 0 <= j < PortIndex(ports, name) ==> ports[j].name != name
  {
    if ports != [] && ports[0].name != name {
      PortIndexFirst(ports[1..], name);
    }
  }

  /** Appending a port never changes where an already known name resolves. */
  lemma PortIndexAppendKnown(ports: seq<Port>, p: Port, name: string)
    requires PortIndex(ports, name) != -1
    ensures PortIndex(ports + [p], name) == PortIndex(ports, name)
  {
    var i := PortIndex(ports, name);
    var q := ports + [p];
    PortIndexFirst(ports, name);
    PortIndexFirst(q, name);
    assert q[i].name == name;
    assert forall j :: 0 <= j < i ==> q[j] == ports[j];
  }

  /** A name unknown so far resolves to the port appended for it. */
  lemma PortIndexAppendNew(ports: seq<Port>, p: Port)
    requires PortIndex(ports, p.name) == -1
    ensures PortIndex(ports + [p], p.name) == |ports|
  {
    var q := ports + [p];
    assert q[|ports|].name == p.name;
    assert forall j :: 0 <= j < |ports| ==> q[j] == ports[j];
  }

  /** The first leg of `legs` at or after index k whose destination resolves to port `to`, or -1. */
  function FirstLegTo(ports: seq<Port>, legs: seq<Route>, to: int, k: nat): (j: int)
    requires k <= |legs|
    ensures j == -1 || k <= j < |legs|
    ensures 0 <= j ==> (PortIndex(ports, legs[j].destination) == to &&
      forall m :: k <= m < j ==> PortIndex(ports, legs[m].destination) != to)
    ensures j == -1 <==> forall m :: k <= m < |legs| ==> PortIndex(ports, legs[m].destination) != to
    decreases |legs| - k
  {
    if k == |legs| then -1
    else if PortIndex(ports, legs[k].destination) == to then k
    else FirstLegTo(ports, legs, to, k + 1)
  }
}
