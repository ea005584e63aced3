/** The scope chain the interpreter reads and writes. The `Scope` class
    itself is not part of this model; its define/assign/lookup contract is:
    a scope maps names to values and may have an enclosing scope; lookup and
    assignment search outward from the innermost scope; definition writes the
    innermost scope; lookup of an unknown name yields none. */
module Scopes {
  import opened Values

  type Frame = map<string, Value>

  /** The active scope and its enclosing scopes, innermost last. */
  type Chain = seq<Frame>

  predicate IsDeclared(c: Chain, name: string)
  {
    exists i :: 0 <= i < |c| && name in c[i]
  }

  /** `Scope.Lookup`: the binding in the innermost scope that has one. */
  function Lookup(c: Chain, name: string): (v: Value)
    ensures !IsDeclared(c, name) ==> v == Null
    ensures |c| > 0 && name in c[|c| - 1] ==> v == c[|c| - 1][name]
  {
    if c == [] then Null
    else if name in c[|c| - 1] then c[|c| - 1][name]
    else Lookup(c[..|c| - 1], name)
  }

  /** `Scope.Assign`: rebinds the name in the innermost scope that has it. */
  function Assign(c: Chain, name: string, v: Value): (r: Chain)
    ensures |r| == |c|
    ensures forall i :: 0 <= i < |c| ==> r[i].Keys == c[i].Keys
  {
    if c == [] then []
    else if name in c[|c| - 1] then c[..|c| - 1] + [c[|c| - 1][name := v]]
    else Assign(c[..|c| - 1], name, v) + [c[|c| - 1]]
  }

  /** `Scope.Define`: binds the name in the innermost scope. */
  function Define(c: Chain, name: string, v: Value): (r: Chain)
    requires |c| >= 1
    ensures |r| == |c| && r[..|c| - 1] == c[..|c| - 1]
    ensures r[|c| - 1].Keys == c[|c| - 1].Keys + {name}
  {
    c[..|c| - 1] + [c[|c| - 1][name := v]]
  }

  /** What STORE does with a name: assign it when declared, else define it. */
  function Store(c: Chain, name: string, v: Value): (r: Chain)
    requires |c| >= 1
    ensures |r| == |c|
  {
    if IsDeclared(c, name) then Assign(c, name, v) else Define(c, name, v)
  }

  /** Looking up in a chain with one more innermost scope. */
  lemma LookupSnoc(init: Chain, f: Frame, name: string)
    ensures Lookup(init + [f], name) == if name in f then f[name] else Lookup(init, name)
    ensures IsDeclared(init + [f], name) <==> IsDeclared(init, name) || name in f
  {
    var c := init + [f];
    assert c[..|c| - 1] == init;
    if IsDeclared(c, name) && name !in f {
      var i :| 0 <= i < |c| && name in c[i];
      assert name in init[i];
    }
    if IsDeclared(init, name) {
      var i :| 0 <= i < |init| && name in init[i];
      assert name in c[i];
    }
  }

  /** Assignment splits into the innermost scope and the rest. */
  lemma AssignSnoc(c: Chain, name: string, v: Value)
    requires c != []
    ensures var init, f := c[..|c| - 1], c[|c| - 1];
      c == init + [f] &&
      Assign(c, name, v) == if name in f then init + [f[name := v]] else Assign(init, name, v) + [f]
  {
  }

  lemma {:induction false} LookupAssign(c: Chain, name: string, v: Value)
    ensures IsDeclared(c, name) ==> Lookup(Assign(c, name, v), name) == v
    decreases |c|
  {
    if c != [] {
      var init, f := c[..|c| - 1], c[|c| - 1];
      AssignSnoc(c, name, v);
      LookupSnoc(init, f, name);
      if name in f {
        LookupSnoc(init, f[name := v], name);
      } else {
        LookupAssign(init, name, v);
        LookupSnoc(Assign(init, name, v), f, name);
      }
    }
  }

  lemma {:induction false} LookupAssignOther(c: Chain, name: string, v: Value, other: string)
    requires other != name
    ensures Lookup(Assign(c, name, v), other) == Lookup(c, other)
    decreases |c|
  {
    if c != [] {
      var init, f := c[..|c| - 1], c[|c| - 1];
      AssignSnoc(c, name, v);
      LookupSnoc(init, f, other);
      if name in f {
        LookupSnoc(init, f[name := v], other);
      } else {
        LookupAssignOther(init, name, v, other);
        LookupSnoc(Assign(init, name, v), f, other);
      }
    }
  }

  lemma LookupDefine(c: Chain, name: string, v: Value, other: string)
    requires |c| >= 1
    ensures Lookup(Define(c, name, v), name) == v
    ensures other != name ==> Lookup(Define(c, name, v), other) == Lookup(c, other)
  {
    var r := Define(c, name, v);
    assert r[..|r| - 1] == c[..|c| - 1];
  }

  /** After a STORE the name is declared and reads back the stored value;
      every other name reads as before. */
  lemma LookupStore(c: Chain, name: string, v: Value, other: string)
    requires |c| >= 1
    ensures IsDeclared(Store(c, name, v), name)
    ensures Lookup(Store(c, name, v), name) == v
    ensures other != name ==> Lookup(Store(c, name, v), other) == Lookup(c, other)
  {
    LookupAssign(c, name, v);
    if other != name {
      LookupAssignOther(c, name, v, other);
    }
    LookupDefine(c, name, v, other);
    var r := Store(c, name, v);
    if IsDeclared(c, name) {
      var i :| 0 <= i < |c| && name in c[i];
      assert name in r[i];
    } else {
      assert name in r[|c| - 1];
    }
  }

  /** A STORE of a declared name keeps every scope's names; one of an
      undeclared name adds it to the innermost scope only. */
  lemma StoreKeys(c: Chain, name: string, v: Value)
    requires |c| >= 1
    ensures IsDeclared(c, name) ==> forall i :: 0 <= i < |c| ==> Store(c, name, v)[i].Keys == c[i].Keys
    ensures !IsDeclared(c, name) ==> Store(c, name, v)[..|c| - 1] == c[..|c| - 1]
    ensures !IsDeclared(c, name) ==> Store(c, name, v)[|c| - 1].Keys == c[|c| - 1].Keys + {name}
  {
  }
}
