/** Scoping environments: chains of declaration lists, from the innermost state outwards. */
module Environments {
  import opened Ast

  // ----- Declaration lists -----

  function LookupDecl(decls: seq<Declaration>, name: string): (r: Option<Declaration>)
    ensures r.Some? ==> r.value in decls && r.value.vname == name
    ensures r.None? ==> forall d | d in decls :: d.vname != name
  {
    if decls == [] then None
    else if decls[0].vname == name then Some(decls[0])
    else LookupDecl(decls[1..], name)
  }

  ghost predicate UniqueNames(decls: seq<Declaration>) {
    forall i, j | 0 <= i < j < |decls| :: decls[i].vname != decls[j].vname
  }

  lemma {:induction false} LookupUnique(decls: seq<Declaration>, d: Declaration)
    requires UniqueNames(decls) && d in decls
    ensures LookupDecl(decls, d.vname) == Some(d)
  {
    if decls[0] != d { LookupUnique(decls[1..], d); }
  }

  class DeclarationList {
    var items: seq<Declaration>

    ghost predicate Valid()
      reads this
    {
      UniqueNames(items)
    }

    constructor ()
      ensures Valid() && items == []
    {
      items := [];
    }

    /** Refuses a name that is already declared. */
    method Add(dec: Declaration) returns (added: bool)
      requires Valid()
      modifies this
      ensures Valid()
      ensures added <==> LookupDecl(old(items), dec.vname) == None
      ensures items == if added then old(items) + [dec] else old(items)
    {
      for i := 0 to |items|
        invariant items == old(items)
        invariant forall j | 0 <= j < i :: items[j].vname != dec.vname
      {
        if items[i].vname == dec.vname {
          assert items[i] in items;
          return false;
        }
      }
      items := items + [dec];
      return true;
    }

    method Lookup(name: string) returns (r: Option<Declaration>)
      ensures r == LookupDecl(items, name)
    {
      for i := 0 to |items|
        invariant LookupDecl(items, name) == LookupDecl(items[i..], name)
      {
        if items[i].vname == name {
          return Some(items[i]);
        }
      }
      return None;
    }
  }

  // ----- Environments -----

  /** `NoEnv` is Java's null. */
  datatype Env = NoEnv | Env(decls: seq<Declaration>, next: Env)

  function Lookup(env: Env, name: string): Option<Declaration> {
    if env.NoEnv? then None
    else
      var d := LookupDecl(env.decls, name);
      if d.Some? then d else Lookup(env.next, name)
  }

  function LookupAll(env: Env, name: string): seq<Declaration> {
    if env.NoEnv? then []
    else
      var d := LookupDecl(env.decls, name);
      (if d.Some? then [d.value] else []) + LookupAll(env.next, name)
  }

  function CopyInclusive(chain: Env, env: Env): Env
    requires chain.Env?
  {
    if chain.next.NoEnv? then Env(chain.decls, env) else Env(chain.decls, CopyInclusive(chain.next, env))
  }

  /** Copies up to, and without, `env`. */
  function CopyExclusive(chain: Env, env: Env): (r: Env)
    requires chain.Env?
    ensures r.Env?
  {
    if chain.next.NoEnv? || env == chain.next then Env(chain.decls, NoEnv)
    else Env(chain.decls, CopyExclusive(chain.next, env))
  }

  /** `env` hangs somewhere below the head of `chain`. */
  predicate ProperSuffix(env: Env, chain: Env) {
    chain.Env? && (env == chain.next || ProperSuffix(env, chain.next))
  }

  predicate Declares(env: Env, d: Declaration) {
    env.Env? && (d in env.decls || Declares(env.next, d))
  }

  lemma {:induction false} LookupDeclares(env: Env, name: string)
    ensures Lookup(env, name).Some? ==> Declares(env, Lookup(env, name).value) && Lookup(env, name).value.vname == name
  {
    if env.Env? { LookupDeclares(env.next, name); }
  }

  /** The first of all matches is the one a lookup finds. */
  lemma {:induction false} LookupIsFirstOfAll(env: Env, name: string)
    ensures Lookup(env, name) == (var all := LookupAll(env, name); if all == [] then None else Some(all[0]))
  {
    if env.Env? { LookupIsFirstOfAll(env.next, name); }
  }

  /** Cutting a chain at a proper suffix and hanging the suffix back gives the chain. */
  lemma {:induction false} CutAndRejoin(chain: Env, env: Env)
    requires chain.Env? && env.Env? && ProperSuffix(env, chain)
    ensures CopyInclusive(CopyExclusive(chain, env), env) == chain
  {
    if env != chain.next { CutAndRejoin(chain.next, env); }
  }

  /** Lookup in a rejoined chain: the upper part first, then the lower. */
  lemma {:induction false} LookupRejoined(upper: Env, env: Env, name: string)
    requires upper.Env?
    ensures Lookup(CopyInclusive(upper, env), name) ==
            (if Lookup(upper, name).Some? then Lookup(upper, name) else Lookup(env, name))
  {
    if upper.next.Env? {
      LookupRejoined(upper.next, env, name);
    } else {
      assert Lookup(upper.next, name) == None;
    }
  }

  lemma {:induction false} LookupAllRejoined(upper: Env, env: Env, name: string)
    requires upper.Env?
    ensures LookupAll(CopyInclusive(upper, env), name) == LookupAll(upper, name) + LookupAll(env, name)
  {
    if upper.next.Env? {
      LookupAllRejoined(upper.next, env, name);
    } else {
      assert LookupAll(upper.next, name) == [];
    }
  }

  /** A chain that does not contain `env` below its head is copied whole. */
  lemma {:induction false} CutElsewhere(chain: Env, env: Env)
    requires chain.Env? && env.Env? && !ProperSuffix(env, chain)
    ensures CopyExclusive(chain, env) == chain
  {
    if chain.next.Env? { CutElsewhere(chain.next, env); }
  }
}
