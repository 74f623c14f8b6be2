/** hw1: which names lead out of the directory that they are pushed onto. */
module Climbing {
  import opened Bytes
  import opened FileSystems
  import opened Paths
  import opened Wrappers

  // ----- Sequences of path components

  /** Where components lead from a directory as far as they alone tell. */
  function Walk(at: Location, cs: seq<seq<byte>>): Location {
    if cs == [] then at else Step(Walk(at, cs[..|cs| - 1]), cs[|cs| - 1])
  }

  /** The level after one more component, counted from the directory where the walk starts; None above it. */
  function Move(level: nat, c: seq<byte>): Option<nat> {
    if c == [] || c == [DOT] then Some(level)
    else if c == [DOT, DOT] then if level > 0 then Some(level - 1) else None
    else Some(level + 1)
  }

  /** The level where components lead; None once they have gone above their start. */
  function Depth(cs: seq<seq<byte>>): Option<nat> {
    if cs == [] then Some(0)
    else
      var level :- Depth(cs[..|cs| - 1]);
      Move(level, cs[|cs| - 1])
  }

  predicate AtLevel(at: Location, x: Location, level: Option<nat>) {
    at <= x && level.Some? && |x| == |at| + level.value
  }

  lemma StepBelow(at: Location, x: Location, level: nat, c: seq<byte>)
    requires AtLevel(at, x, Some(level)) && Move(level, c).Some?
    ensures AtLevel(at, Step(x, c), Move(level, c))
  {
  }

  lemma {:induction false} WalksBelow(at: Location, cs: seq<seq<byte>>)
    requires Depth(cs).Some?
    ensures AtLevel(at, Walk(at, cs), Depth(cs))
  {
    if cs == [] {
    } else {
      var front := cs[..|cs| - 1];
      WalksBelow(at, front);
      StepBelow(at, Walk(at, front), Depth(front).value, cs[|cs| - 1]);
    }
  }

  predicate Under(top: seq<byte>, x: Location) {
    x != [] && x[0] == top
  }

  lemma StepOut(top: seq<byte>, x: Location, c: seq<byte>)
    requires |c| < |top|
    requires !Under(top, x) || (x == [top] && Move(0, c).None?)
    ensures !Under(top, Step(x, c))
  {
  }

  /** A first name longer than all components is not restored once they have climbed over it. */
  lemma {:induction false} WalksOut(top: seq<byte>, cs: seq<seq<byte>>)
    requires Depth(cs).None? && forall i | 0 <= i < |cs| :: |cs[i]| < |top|
    ensures !Under(top, Walk([top], cs))
  {
    if cs == [] {
    } else {
      var front := cs[..|cs| - 1];
      if Depth(front).Some? {
        WalksBelow([top], front);
      } else {
        WalksOut(top, front);
      }
      StepOut(top, Walk([top], front), cs[|cs| - 1]);
    }
  }

  // ----- Names

  /** The components of a name with any '/'s in it. */
  function Components(name: seq<byte>): (r: seq<seq<byte>>)
    ensures forall i | 0 <= i < |r| :: |r[i]| <= |name|
    decreases |name|
  {
    var k := LastSlash(name);
    if k < 0 then [name] else Components(name[..k]) + [name[k + 1..]]
  }

  /** Where a name leads from a directory as far as the name alone tells. */
  function Landing(at: Location, name: seq<byte>): Location {
    Walk(at, Components(name))
  }

  /** Levels below the directory where the name starts; None once the name has gone above it. */
  function Level(name: seq<byte>): Option<nat> {
    Depth(Components(name))
  }

  /** The name stays in the directory that it is pushed onto. */
  predicate Inside(name: seq<byte>) {
    Level(name).Some?
  }

  lemma OneComponent(at: Location, name: seq<byte>)
    requires SLASH !in name
    ensures Landing(at, name) == Step(at, name) && Level(name) == Move(0, name)
  {
    var cs := [name];
    assert Components(name) == cs && cs[..|cs| - 1] == [];
    assert Walk(at, cs) == Step(Walk(at, cs[..|cs| - 1]), name);
    assert Depth(cs[..|cs| - 1]) == Some(0) && Depth(cs) == Move(0, name);
  }

  lemma LastComponent(at: Location, name: seq<byte>)
    requires LastSlash(name) >= 0
    ensures var (front, last) := (name[..LastSlash(name)], name[LastSlash(name) + 1..]);
            && Landing(at, name) == Step(Landing(at, front), last)
            && Level(name) == if Level(front).None? then None else Move(Level(front).value, last)
  {
    var (front, last) := (name[..LastSlash(name)], name[LastSlash(name) + 1..]);
    var cs := Components(front) + [last];
    assert Components(name) == cs && cs[..|cs| - 1] == Components(front);
  }

  lemma FrontInside(name: seq<byte>)
    requires LastSlash(name) >= 0
    ensures var (front, last) := (name[..LastSlash(name)], name[LastSlash(name) + 1..]);
            Inside(name) <==> Inside(front) && Move(Level(front).value, last).Some?
  {
    LastComponent([], name);
  }

  lemma LandsBelow(at: Location, name: seq<byte>)
    requires Inside(name)
    ensures AtLevel(at, Landing(at, name), Level(name))
  {
    WalksBelow(at, Components(name));
  }

  /** A name is harmless in every directory exactly when no part of it has more ".." than names before it. */
  lemma InsideExact(name: seq<byte>)
    ensures Inside(name) <==> forall at: Location :: at <= Landing(at, name)
  {
    if Inside(name) {
      forall at: Location ensures at <= Landing(at, name) {
        LandsBelow(at, name);
      }
    } else {
      var top := name + [DOT];
      WalksOut(top, Components(name));
      assert !([top] <= Landing([top], name));
    }
  }

  lemma NamesAreInside(name: seq<byte>)
    requires IsName(name)
    ensures Inside(name)
  {
    OneComponent([], name);
  }

  // ----- Names on paths

  lemma EnterLands(fs: FileSystem, at: Option<Location>, c: seq<byte>)
    requires Enter(fs, at, c).Some?
    ensures at.Some? && Enter(fs, at, c) == Some(Step(at.value, c))
  {
  }

  /** Pushing a name and resolving the path leads nowhere else than the name says. */
  lemma {:induction false} JoinLands(fs: FileSystem, p: Path, at: Location, name: seq<byte>)
    requires At(fs, p) == Some(at) && At(fs, Join(p, name)).Some?
    ensures At(fs, Join(p, name)) == Some(Landing(at, name))
    decreases |name|
  {
    var k := LastSlash(name);
    if k < 0 {
      AtJoin(fs, p, name);
      OneComponent(at, name);
      EnterLands(fs, At(fs, p), name);
    } else {
      AtJoinSplit(fs, p, name);
      LastComponent(at, name);
      EnterLands(fs, At(fs, Join(p, name[..k])), name[k + 1..]);
      JoinLands(fs, p, at, name[..k]);
    }
  }
}
