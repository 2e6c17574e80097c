/** The slow search that the method caches speed up: from a class up through its parents. */
module TypeSystem {
  import opened Wrappers
  import opened AvlTree

  datatype Method = Method(id: uint32, name: string, numArgs: nat, isAbstract: bool, signature: nat)

  /** A class with its methods, the `callable` virtual and instance ones first, and the class it extends. */
  datatype Class = Class(id: uint32, name: string, isInterface: bool, methods: seq<Method>, callable: nat, parent: Option<Class>)

  /** All classes, where each method is declared, and which signatures match. */
  datatype Metadata = Metadata(classes: map<uint32, Class>, place: map<uint32, (uint32, nat)>, matches: (nat, nat) -> bool) {

    /** Every method has one place in one class. */
    ghost predicate Valid() {
      && (forall c :: c in classes ==> classes[c].id == c && ChainOk(classes[c]))
      && (forall m :: m in place ==> place[m].0 in classes && place[m].1 < |classes[place[m].0].methods|
                                     && classes[place[m].0].methods[place[m].1].id == m)
    }

    ghost predicate ChainOk(c: Class) {
      && c.id in classes && classes[c.id] == c && c.callable <= |c.methods|
      && (forall k :: 0 <= k < |c.methods| ==> c.methods[k].id in place && place[c.methods[k].id] == (c.id, k))
      && (c.parent.Some? ==> ChainOk(c.parent.value))
    }

    function Declared(m: uint32): Method
      requires Valid() && m in place
    {
      classes[place[m].0].methods[place[m].1]
    }

    function Owner(m: uint32): Option<uint32> {
      if m in place then Some(place[m].0) else None
    }

    predicate IsAbstract(m: uint32)
      requires Valid()
    {
      m in place && Declared(m).isAbstract
    }

    /** The method is one that a call of `callee` by this name may end in. */
    predicate Answers(t: Method, callee: Method, name: string) {
      t.numArgs == callee.numArgs && !t.isAbstract && t.name == name && matches(callee.signature, t.signature)
    }

    /** The first method of a class, from number `i` on, that is the one called or answers for it. */
    function InClass(c: Class, callee: Method, name: string, i: nat): (r: Option<uint32>)
      requires c.callable <= |c.methods| && i <= c.callable
      decreases c.callable - i
    {
      if i == c.callable then None
      else if c.methods[i].id == callee.id then Some(callee.id)
      else if Answers(c.methods[i], callee, name) then Some(c.methods[i].id)
      else InClass(c, callee, name, i + 1)
    }

    function Walk(c: Option<Class>, callee: Method, name: string): Option<uint32>
      requires c.Some? ==> ChainOk(c.value)
      decreases c
    {
      if c == None then None
      else
        var r := InClass(c.value, callee, name, 0);
        if r.Some? then r else Walk(c.value.parent, callee, name)
    }

    /** The name of a class's own implementation of an interface's method. */
    function ExplicitName(m: uint32): string
      requires Valid() && m in place
    {
      classes[place[m].0].name + "." + Declared(m).name
    }

    /** What the slow search answers. */
    function Resolve(cls: uint32, m: uint32): Option<uint32>
      requires Valid()
    {
      if m !in place then None
      else
        var c := if cls in classes then Some(classes[cls]) else None;
        var r := if classes[place[m].0].isInterface then Walk(c, Declared(m), ExplicitName(m)) else None;
        if r.Some? then r else Walk(c, Declared(m), Declared(m).name)
    }

    method FindByName(cls: uint32, m: uint32, name: string) returns (r: Option<uint32>)
      requires Valid() && m in place
      ensures r == Walk(if cls in classes then Some(classes[cls]) else None, Declared(m), name)
    {
      var c := if cls in classes then Some(classes[cls]) else None;
      ghost var start := c;
      while c.Some?
        invariant c.Some? ==> ChainOk(c.value)
        invariant Walk(start, Declared(m), name) == Walk(c, Declared(m), name)
        decreases c
      {
        var i: nat := 0;
        while i < c.value.callable
          invariant i <= c.value.callable && InClass(c.value, Declared(m), name, 0) == InClass(c.value, Declared(m), name, i)
        {
          if c.value.methods[i].id == m { return Some(m); }
          if Answers(c.value.methods[i], Declared(m), name) { return Some(c.value.methods[i].id); }
          i := i + 1;
        }
        c := c.value.parent;
      }
      r := None;
    }

    method FindVirtualMethodDef(cls: uint32, m: uint32) returns (r: Option<uint32>)
      requires Valid()
      ensures r == Resolve(cls, m) && Dispatches(cls, m, r)
    {
      ResolveDispatches(cls, m);
      if m !in place { return None; }
      if classes[place[m].0].isInterface {
        r := FindByName(cls, m, ExplicitName(m));
        if r.Some? { return r; }
      }
      r := FindByName(cls, m, Declared(m).name);
    }

    // ---------- What a search finds ----------

    /** A class and those it extends, the nearest first. */
    ghost function ChainOf(c: Option<Class>): seq<Class>
      decreases c
    {
      if c == None then [] else [c.value] + ChainOf(c.value.parent)
    }

    /** The method called, or one that overrides it under this name: not abstract, with as many arguments and a matching
        signature. */
    ghost predicate Implements(t: Method, m: Method, name: string) {
      t.id == m.id || (!t.isAbstract && t.name == name && t.numArgs == m.numArgs && matches(m.signature, t.signature))
    }

    /** No virtual or instance method of the class before number `k` implements it. */
    ghost predicate NoneBefore(c: Class, m: Method, name: string, k: nat) {
      forall i :: 0 <= i < k && i < |c.methods| && i < c.callable ==> !Implements(c.methods[i], m, name)
    }

    /** The answer is the first implementation in the nearest class that has one, or none if no class has one. */
    ghost predicate Nearest(chain: seq<Class>, m: Method, name: string, r: Option<uint32>) {
      if r == None then forall d :: 0 <= d < |chain| ==> NoneBefore(chain[d], m, name, chain[d].callable)
      else
        exists d: nat, k: nat :: d < |chain| && k < chain[d].callable && k < |chain[d].methods|
          && r == Some(chain[d].methods[k].id) && Implements(chain[d].methods[k], m, name)
          && NoneBefore(chain[d], m, name, k) && forall i :: 0 <= i < d ==> NoneBefore(chain[i], m, name, chain[i].callable)
    }

    /** The answer to a virtual call: by the name of the method, but for a method of an interface first by its explicit
        name. */
    ghost predicate Dispatches(cls: uint32, m: uint32, r: Option<uint32>)
      requires Valid()
    {
      if m !in place then r == None
      else
        var c, k := classes[place[m].0], place[m].1;
        var chain := ChainOf(if cls in classes then Some(classes[cls]) else None);
        if !c.isInterface then Nearest(chain, c.methods[k], c.methods[k].name, r)
        else
          || (r.Some? && Nearest(chain, c.methods[k], c.name + "." + c.methods[k].name, r))
          || (Nearest(chain, c.methods[k], c.name + "." + c.methods[k].name, None) && Nearest(chain, c.methods[k], c.methods[k].name, r))
    }

    lemma {:induction false} InClassFirst(c: Class, m: Method, name: string, i: nat) returns (k: nat)
      requires c.callable <= |c.methods| && i <= c.callable && NoneBefore(c, m, name, i)
      ensures match InClass(c, m, name, i)
              case None => NoneBefore(c, m, name, c.callable)
              case Some(r) => k < c.callable && r == c.methods[k].id && Implements(c.methods[k], m, name) && NoneBefore(c, m, name, k)
      decreases c.callable - i
    {
      k := i;
      if i < c.callable && c.methods[i].id != m.id && !Answers(c.methods[i], m, name) {
        k := InClassFirst(c, m, name, i + 1);
      }
    }

    lemma {:induction false} WalkNearest(c: Option<Class>, m: Method, name: string)
      requires c.Some? ==> ChainOk(c.value)
      ensures Nearest(ChainOf(c), m, name, Walk(c, m, name))
      decreases c
    {
      if c.Some? {
        hide Implements, NoneBefore, InClass;
        NoneYet(c.value, m, name);
        var k := InClassFirst(c.value, m, name, 0);
        var chain, rest := ChainOf(c), ChainOf(c.value.parent);
        assert chain[0] == c.value && forall d :: 0 < d < |chain| ==> chain[d] == rest[d - 1];
        if InClass(c.value, m, name, 0) == None {
          WalkNearest(c.value.parent, m, name);
          FartherNearest(c.value, rest, m, name, Walk(c, m, name));
        } else {
          assert chain[0].methods[k].id == InClass(c.value, m, name, 0).value;
        }
      }
    }

    lemma NoneYet(c: Class, m: Method, name: string)
      ensures NoneBefore(c, m, name, 0)
    {
    }

    lemma FartherNearest(c: Class, rest: seq<Class>, m: Method, name: string, r: Option<uint32>)
      requires NoneBefore(c, m, name, c.callable) && Nearest(rest, m, name, r)
      ensures Nearest([c] + rest, m, name, r)
    {
      hide Implements, NoneBefore;
      var chain := [c] + rest;
      if r.Some? {
        var d: nat, k: nat :| d < |rest| && k < rest[d].callable && k < |rest[d].methods|
          && r == Some(rest[d].methods[k].id) && Implements(rest[d].methods[k], m, name)
          && NoneBefore(rest[d], m, name, k) && forall i :: 0 <= i < d ==> NoneBefore(rest[i], m, name, rest[i].callable);
        assert chain[d + 1] == rest[d];
        forall i | 0 <= i < d + 1 ensures NoneBefore(chain[i], m, name, chain[i].callable) {
          if i > 0 { assert chain[i] == rest[i - 1]; }
        }
      }
    }

    /** The slow search dispatches. */
    lemma ResolveDispatches(cls: uint32, m: uint32)
      requires Valid()
      ensures Dispatches(cls, m, Resolve(cls, m))
    {
      if m in place {
        hide Nearest, Walk;
        var c := if cls in classes then Some(classes[cls]) else None;
        WalkNearest(c, Declared(m), ExplicitName(m));
        WalkNearest(c, Declared(m), Declared(m).name);
      }
    }

    // ---------- When a search finds the method that is called ----------

    /** The method is a virtual or instance one. */
    predicate IsCallable(m: uint32)
      requires Valid()
    {
      m in place && place[m].1 < classes[place[m].0].callable
    }

    /** No method that comes before in the class answers for the method. */
    predicate ComesFirst(m: uint32)
      requires Valid() && m in place
    {
      var c, k := classes[place[m].0], place[m].1;
      var name := if c.isInterface then ExplicitName(m) else c.methods[k].name;
      k < c.callable && forall i :: 0 <= i < k ==> !Answers(c.methods[i], c.methods[k], name)
    }

    /** What a class's methods before the called one answer, or the called one. */
    lemma {:induction false} InOwnClass(m: uint32, name: string, i: nat)
      requires Valid() && m in place && i <= classes[place[m].0].callable
      ensures var c, k := classes[place[m].0], place[m].1;
              InClass(c, c.methods[k], name, i) == Some(m)
              <==> (i <= k < c.callable && forall j :: i <= j < k ==> !Answers(c.methods[j], c.methods[k], name))
      ensures var c, k := classes[place[m].0], place[m].1;
              i <= k < c.callable ==> InClass(c, c.methods[k], name, i).Some?
      decreases classes[place[m].0].callable - i
    {
      var c, k := classes[place[m].0], place[m].1;
      assert ChainOk(c);
      if i < c.callable && c.methods[i].id != m {
        InOwnClass(m, name, i + 1);
        assert place[c.methods[i].id] == (c.id, i);
      } else if i < c.callable {
        assert place[m] == (c.id, i);
      }
    }

    /** A class that does not declare the method answers with another. */
    lemma {:induction false} InOtherClass(c: Class, m: uint32, name: string, i: nat)
      requires Valid() && m in place && ChainOk(c) && c.id != place[m].0 && i <= c.callable
      ensures InClass(c, Declared(m), name, i) != Some(m)
      decreases c.callable - i
    {
      if i < c.callable {
        assert place[c.methods[i].id] == (c.id, i);
        InOtherClass(c, m, name, i + 1);
      }
    }

    function Depth(c: Class): nat {
      if c.parent == None then 0 else 1 + Depth(c.parent.value)
    }

    /** No class among the parents of the declaring class is that class again. */
    lemma {:induction false} NotAmongParents(c: Option<Class>, m: uint32, name: string)
      requires Valid() && m in place && (c.Some? ==> ChainOk(c.value) && Depth(c.value) < Depth(classes[place[m].0]))
      ensures Walk(c, Declared(m), name) != Some(m)
      decreases c
    {
      if c.Some? {
        assert c.value.id != place[m].0;
        InOtherClass(c.value, m, name, 0);
        NotAmongParents(c.value.parent, m, name);
      }
    }

    /** In the class that declares it a method is found by a name exactly if nothing before it answers to the name. */
    lemma WalkFinds(m: uint32, name: string)
      requires Valid() && m in place
      ensures var c, k := classes[place[m].0], place[m].1;
              Walk(Some(c), c.methods[k], name) == Some(m)
              <==> (k < c.callable && forall j :: 0 <= j < k ==> !Answers(c.methods[j], c.methods[k], name))
      ensures place[m].1 < classes[place[m].0].callable ==> Walk(Some(classes[place[m].0]), Declared(m), name).Some?
    {
      var c := classes[place[m].0];
      assert ChainOk(c);
      InOwnClass(m, name, 0);
      NotAmongParents(c.parent, m, name);
    }

    /** A search that starts in the class that declares the method finds the method itself exactly if it is a virtual
        or instance method, abstract or not, and no method before it in the class answers for it. */
    lemma FindsItself(m: uint32)
      requires Valid() && m in place
      ensures Resolve(place[m].0, m) == Some(m) <==> ComesFirst(m)
    {
      WalkFinds(m, ExplicitName(m));
      WalkFinds(m, Declared(m).name);
    }
  }

  /** No two methods of a class can answer for each other, as section II.22.26 of ECMA-335 demands, also by the names of
      explicit implementations. */
  ghost predicate NoDuplicates(t: Metadata)
    requires t.Valid()
  {
    forall c, i, k :: c in t.classes && 0 <= i < k < t.classes[c].callable ==>
      TellApart(t, t.classes[c], t.classes[c].methods[i], t.classes[c].methods[k])
  }

  ghost predicate TellApart(t: Metadata, c: Class, a: Method, b: Method) {
    !t.Answers(a, b, if c.isInterface then c.name + "." + b.name else b.name)
  }

  /** In proper metadata every virtual or instance method is what a search in its own class finds. */
  lemma AllFindThemselves(t: Metadata, m: uint32)
    requires t.Valid() && NoDuplicates(t) && t.IsCallable(m)
    ensures t.ComesFirst(m) && t.Resolve(t.place[m].0, m) == Some(m)
  {
    var c, k := t.classes[t.place[m].0], t.place[m].1;
    assert t.ChainOk(c);
    forall i | 0 <= i < k ensures !t.Answers(c.methods[i], c.methods[k], if c.isInterface then t.ExplicitName(m) else c.methods[k].name) {
      assert TellApart(t, c, c.methods[i], c.methods[k]);
    }
    t.FindsItself(m);
  }

  /** Metadata that has been loaded. */
  type Types = t: Metadata | t.Valid() witness Metadata(map[], map[], (_, _) => false)
}
