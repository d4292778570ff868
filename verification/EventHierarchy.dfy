/** Events that share parent events. A child keeps a stack of its parents, one per level; a parent
    keeps a reference count, and goes back to where it came from when a child gives up the last
    reference. */
module EventHierarchy {

  datatype Link<P> = Link(level: nat, parent: P)

  predicate HasLevel<P>(stack: seq<Link<P>>, level: nat) {
    exists i :: 0 <= i < |stack| && stack[i].level == level
  }

  ghost predicate LevelsDistinct<P>(stack: seq<Link<P>>) {
    forall i, j :: 0 <= i < j < |stack| ==> stack[i].level != stack[j].level
  }

  predicate OnTop<P>(stack: seq<Link<P>>, level: nat) {
    |stack| > 0 && stack[|stack| - 1].level == level
  }

  function Last<P(==)>(stack: seq<Link<P>>): set<P> {
    if |stack| == 0 then {} else {stack[|stack| - 1].parent}
  }

  /** What ReleaseParent reports. */
  datatype Outcome<P> = Threw | StillShared | HandedBack(parent: P)

  class JEvent {
    const level: nat
    var parents: seq<Link<JEvent>>
    var count: int

    constructor (level: nat)
      ensures this.level == level && parents == [] && count == 1
    {
      this.level, parents, count := level, [], 1;
    }

    method HasParent(level: nat) returns (found: bool)
      ensures found == HasLevel(parents, level)
    {
      for i := 0 to |parents|
        invariant forall j :: 0 <= j < i ==> parents[j].level != level
      {
        if parents[i].level == level { return true; }
      }
      found := false;
    }

    /** No parent stands for the exception. */
    method GetParent(level: nat) returns (parent: JEvent?)
      requires LevelsDistinct(parents)
      ensures parent == null <==> !HasLevel(parents, level)
      ensures forall i :: 0 <= i < |parents| && parents[i].level == level ==> parent == parents[i].parent
    {
      for i := 0 to |parents|
        invariant forall j :: 0 <= j < i ==> parents[j].level != level
      {
        if parents[i].level == level { return parents[i].parent; }
      }
      parent := null;
    }

    method SetParent(parent: JEvent) returns (threw: bool)
      modifies this`parents, parent`count
      ensures threw == HasLevel(old(parents), parent.level)
      ensures parents == if threw then old(parents) else old(parents) + [Link(parent.level, parent)]
      ensures parent.count == old(parent.count) + if threw then 0 else 1
      ensures old(LevelsDistinct(parents)) ==> LevelsDistinct(parents)
    {
      for i := 0 to |parents|
        invariant parents == old(parents) && parent.count == old(parent.count)
        invariant forall j :: 0 <= j < i ==> parents[j].level != parent.level
      {
        if parents[i].level == parent.level { return true; }
      }
      parents := parents + [Link(parent.level, parent)];
      parent.count := parent.count + 1;
      threw := false;
    }

    method ReleaseParent(level: nat) returns (r: Outcome<JEvent>)
      modifies this`parents, Last(parents)`count
      ensures !OnTop(old(parents), level) ==>
                r == Threw && parents == old(parents) &&
                (parents != [] ==> parents[|parents| - 1].parent.count == old(parents[|parents| - 1].parent.count))
      ensures OnTop(old(parents), level) ==>
                var last := old(parents[|parents| - 1].parent); var was := old(parents[|parents| - 1].parent.count);
                parents == old(parents[..|parents| - 1]) && last.count == was - 1 &&
                r == if was < 1 then Threw else if was == 1 then HandedBack(last) else StillShared
    {
      if |parents| == 0 { return Threw; }
      var last := parents[|parents| - 1];
      if last.level != level { return Threw; }
      parents := parents[..|parents| - 1];
      var remaining := last.parent.count;
      last.parent.count := remaining - 1;
      if remaining < 1 { return Threw; }
      r := if remaining == 1 then HandedBack(last.parent) else StillShared;
    }

    method Release() returns (threw: bool)
      modifies this`count
      ensures count == old(count) - 1 && threw == (old(count) < 0)
    {
      var remaining := count;
      count := count - 1;
      threw := remaining < 0;
    }

    method Reset()
      modifies this`count
      ensures count == 1
    {
      count := 1;
    }
  }
}
