/**
 * Which fields of a structure a destructor clears, itself or through the functions it calls: a
 * depth-first search over the call graph that shares one set of visited names between all branches.
 * What a single function clears, what it calls and whether it works on the structure at all come
 * from scanning its text and are inputs here. Function names are taken to be unique.
 */
module Zeroize {

  type Name = string

  /** `clears` may name things that are not fields of the structure at hand. */
  datatype Func = Func(clears: set<Name>, calls: set<Name>, onType: bool)

  type Program = map<Name, Func>

  /** The calls the search follows: to another known function that works on the structure. */
  predicate Follows(p: Program, f: Name, g: Name) {
    f in p && g in p[f].calls && g in p && g != f && p[g].onType
  }

  ghost predicate IsPath(p: Program, path: seq<Name>) {
    |path| > 0 && (|path| > 1 ==> Follows(p, path[0], path[1]) && IsPath(p, path[1..]))
  }

  ghost predicate Reaches(p: Program, f: Name, g: Name) {
    exists path :: IsPath(p, path) && path[0] == f && path[|path| - 1] == g
  }

  /** Everything some function in `fs` clears. */
  function ClearedBy(p: Program, fs: set<Name>): set<Name> {
    set g, n | g in fs && g in p && n in p[g].clears :: n
  }

  lemma ClearedUnion(p: Program, a: set<Name>, b: set<Name>)
    ensures ClearedBy(p, a + b) == ClearedBy(p, a) + ClearedBy(p, b)
  {
  }

  lemma ReachesSelf(p: Program, f: Name)
    ensures Reaches(p, f, f)
  {
    assert IsPath(p, [f]);
  }

  lemma ReachesThrough(p: Program, f: Name, g: Name, h: Name)
    requires Follows(p, f, g) && Reaches(p, g, h)
    ensures Reaches(p, f, h)
  {
    var path :| IsPath(p, path) && path[0] == g && path[|path| - 1] == h;
    assert ([f] + path)[1..] == path;
    assert IsPath(p, [f] + path);
  }

  /** A set closed under the followed calls contains whatever its members reach. */
  lemma {:induction false} ClosedContains(p: Program, s: set<Name>, path: seq<Name>)
    requires IsPath(p, path) && path[0] in s
    requires forall f, g :: f in s && Follows(p, f, g) ==> g in s
    ensures path[|path| - 1] in s
    decreases |path|
  {
    if |path| > 1 {
      ClosedContains(p, s, path[1..]);
    }
  }

  class Search {
    const p: Program
    /** The fields that count, and the mark for a structure cleared as a whole. */
    const wanted: set<Name>
    var seen: set<Name>

    constructor (p: Program, wanted: set<Name>)
      ensures this.p == p && this.wanted == wanted && seen == {}
    {
      this.p, this.wanted, seen := p, wanted, {};
    }

    /** Every call out of a newly visited function leads to a visited one. */
    ghost predicate Closed(before: set<Name>, now: set<Name>)
    {
      forall f, g :: f in now - before && Follows(p, f, g) ==> g in now
    }

    /**
     * Visit `f` and what it reaches, except what is already in `seen`. The answer is what the newly
     * visited functions clear: an inner call may well return less than its function reaches.
     */
    method Covered(f: Name) returns (got: set<Name>)
      requires f in p && seen <= p.Keys
      modifies this`seen
      ensures old(seen) <= seen <= p.Keys && f in seen
      ensures Closed(old(seen), seen)
      ensures forall g :: g in seen - old(seen) ==> Reaches(p, f, g)
      ensures got == ClearedBy(p, seen - old(seen)) * wanted
      decreases |p.Keys - seen|
    {
      assert ClearedBy(p, {}) == {} && ClearedBy(p, {f}) == p[f].clears;
      hide ClearedBy, Reaches;
      if f in seen {
        return {};
      }
      ghost var before := seen;
      seen := seen + {f};
      assert p.Keys - seen < p.Keys - before;
      Smaller(p.Keys - seen, p.Keys - before);
      got := p[f].clears;
      ReachesSelf(p, f);
      assert seen - before == {f};
      var todo := p[f].calls;
      while todo != {}
        invariant todo <= p[f].calls
        invariant before + {f} <= seen <= p.Keys
        invariant Closed(before + {f}, seen)
        invariant forall g :: Follows(p, f, g) && g !in todo ==> g in seen
        invariant forall g :: g in seen - before ==> Reaches(p, f, g)
        invariant got * wanted == ClearedBy(p, seen - before) * wanted
        decreases |todo|
      {
        var g :| g in todo;
        todo := todo - {g};
        if g in p && g != f && p[g].onType {
          ghost var here, mine := seen, got;
          Smaller(p.Keys - here, p.Keys - before - {f});
          var more := Covered(g);
          got := got + more;
          forall h | h in seen - here
            ensures Reaches(p, f, h)
          {
            ReachesThrough(p, f, g, h);
          }
          assert seen - before == (here - before) + (seen - here);
          ClearedUnion(p, here - before, seen - here);
          assert got * wanted == mine * wanted + ClearedBy(p, seen - here) * wanted;
        }
      }
      got := got * wanted;
    }

    lemma Smaller<T>(a: set<T>, b: set<T>)
      requires a <= b
      ensures |a| <= |b| && (a != b ==> |a| < |b|)
    {
      assert b == a + (b - a);
      if a != b {
        assert b - a != {};
      }
    }

    /** The call that starts the search gets it all: exactly the wanted names cleared by some function
        the destructor reaches, and it ends. */
    method CoveredFromTop(f: Name) returns (got: set<Name>)
      requires f in p
      modifies this`seen
      ensures forall g :: g in seen <==> Reaches(p, f, g)
      ensures forall n :: n in got <==> n in wanted && exists g :: Reaches(p, f, g) && g in p && n in p[g].clears
    {
      seen := {};
      got := Covered(f);
      forall g | Reaches(p, f, g)
        ensures g in seen
      {
        var path :| IsPath(p, path) && path[0] == f && path[|path| - 1] == g;
        ClosedContains(p, seen, path);
      }
    }
  }
}
