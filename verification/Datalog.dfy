/** The part of Biscuit's logic language that the service's tokens use: facts, joins, checks and block scope. */
module Datalog {
  import opened Text

  datatype Value = Str(s: string) | Bool(b: bool) | Date(t: int)

  /** The names of the facts that the service writes, and any other name a token may hold. */
  datatype Relation =
    | CapabilityFact | SpiffeId | AgentId | BoundKey | AllowedCap | AllowedPath | DeniedPath
    | OperationFact | ValidPop | Time | Other(id: string)

  datatype Fact = Fact(name: Relation, args: seq<Value>)

  datatype Term = Var(name: string) | Lit(value: Value)
  datatype Atom = Atom(name: Relation, terms: seq<Term>)

  /** `$x <= limit` over dates. */
  datatype Guard = NoGuard | NotAfter(x: string, limit: int)
  datatype Query = Query(body: seq<Atom>, guard: Guard)

  type Binding = map<string, Value>

  /** Extends `b` so that the terms become the arguments, if that is possible. */
  function Match(terms: seq<Term>, args: seq<Value>, b: Binding): Option<Binding> {
    if terms == [] then if args == [] then Some(b) else None
    else if args == [] then None
    else
      match terms[0]
      case Lit(v) => if v == args[0] then Match(terms[1..], args[1..], b) else None
      case Var(x) =>
        if x in b && b[x] != args[0] then None
        else Match(terms[1..], args[1..], b[x := args[0]])
  }

  predicate GuardHolds(g: Guard, b: Binding) {
    match g
    case NoGuard => true
    case NotAfter(x, limit) => x in b && b[x].Date? && b[x].t <= limit
  }

  /** Some choice of one fact per atom binds the variables consistently and meets the guard. */
  ghost predicate Joins(body: seq<Atom>, guard: Guard, facts: set<Fact>, b: Binding) {
    if body == [] then GuardHolds(guard, b)
    else
      exists f :: f in facts && f.name == body[0].name
        && Match(body[0].terms, f.args, b).Some?
        && Joins(body[1..], guard, facts, Match(body[0].terms, f.args, b).value)
  }

  ghost predicate Holds(q: Query, facts: set<Fact>) {
    Joins(q.body, q.guard, facts, map[])
  }

  datatype Block = Block(facts: seq<Fact>, checks: seq<Query>)

  /** A token: the authority block first, and for every block the revocation id of its signature. */
  datatype Token = Token(authority: Block, appended: seq<Block>, ids: seq<string>)

  function FactsOf(b: Block): set<Fact> {
    set f | f in b.facts
  }

  /** Every check of `b` holds over the facts in `scope`. */
  ghost predicate ChecksHold(b: Block, scope: set<Fact>) {
    forall q :: q in b.checks ==> Holds(q, scope)
  }

  /**
   * Evaluation under Biscuit's default scopes. The authorizer and the authority block see the facts of
   * those two; an appended block sees these and its own. All checks and one allow policy must hold.
   */
  ghost predicate Authorizes(t: Token, ambient: set<Fact>, policies: seq<Query>) {
    var trusted := FactsOf(t.authority) + ambient;
    && ChecksHold(t.authority, trusted)
    && (forall i :: 0 <= i < |t.appended| ==> ChecksHold(t.appended[i], trusted + FactsOf(t.appended[i])))
    && (exists q :: q in policies && Holds(q, trusted))
  }

  function Append(t: Token, b: Block, id: string): Token {
    Token(t.authority, t.appended + [b], t.ids + [id])
  }

  /**
   * Whatever a block contains, appending it allows nothing that was not allowed before: a request is
   * allowed exactly when it was allowed and the block's own checks hold in the block's scope.
   */
  lemma AppendOnlyRestricts(t: Token, b: Block, id: string, ambient: set<Fact>, policies: seq<Query>)
    ensures Authorizes(Append(t, b, id), ambient, policies) <==>
      && Authorizes(t, ambient, policies)
      && ChecksHold(b, FactsOf(t.authority) + ambient + FactsOf(b))
  {
    var u := Append(t, b, id);
    assert u.appended[|t.appended|] == b;
    assert forall i :: 0 <= i < |t.appended| ==> u.appended[i] == t.appended[i];
  }

  // ---- The query shapes in use ----

  lemma MatchOne(s: Term, args: seq<Value>, b: Binding)
    ensures Match([s], args, b)
      == if |args| != 1 then None
         else match s
           case Lit(v) => if v == args[0] then Some(b) else None
           case Var(x) => if x in b && b[x] != args[0] then None else Some(b[x := args[0]])
  {
    assert [s][1..] == [];
    if |args| >= 1 { assert args[1..] == [] <==> |args| == 1; }
  }

  lemma MatchTwo(s: Term, t: Term, args: seq<Value>, b: Binding)
    ensures Match([s, t], args, b)
      == if |args| != 2 then None
         else match Match([s], [args[0]], b)
           case None => None
           case Some(c) => Match([t], [args[1]], c)
  {
    assert [s, t][1..] == [t] && [s][1..] == [];
    if |args| >= 1 {
      assert [args[0]][1..] == [];
      if |args| == 2 {
        assert args[1..] == [args[1]];
      } else if s.Lit? {
        MatchOne(t, args[1..], b);
      } else {
        MatchOne(t, args[1..], b[s.name := args[0]]);
      }
      MatchOne(s, [args[0]], b);
    }
  }

  /** An atom over two distinct fresh variables matches every fact of its name with two arguments. */
  lemma JoinFreshPair(name: Relation, x: string, y: string, rest: seq<Atom>, g: Guard, facts: set<Fact>)
    requires x != y
    ensures Joins([Atom(name, [Var(x), Var(y)])] + rest, g, facts, map[]) <==>
      exists u, v :: Fact(name, [u, v]) in facts && Joins(rest, g, facts, map[x := u, y := v])
  {
    var body := [Atom(name, [Var(x), Var(y)])] + rest;
    assert body[1..] == rest;
    forall u, v ensures Match([Var(x), Var(y)], [u, v], map[]) == Some(map[x := u, y := v]) {
      MatchPair(x, y, u, v);
    }
    forall f | f in facts && Match(body[0].terms, f.args, map[]).Some?
      ensures |f.args| == 2 && Fact(f.name, [f.args[0], f.args[1]]) == f
    {
      MatchTwo(Var(x), Var(y), f.args, map[]);
    }
    if u, v :| Fact(name, [u, v]) in facts && Joins(rest, g, facts, map[x := u, y := v]) {
      assert Match(body[0].terms, Fact(name, [u, v]).args, map[]).value == map[x := u, y := v];
    }
  }

  lemma MatchPair(x: string, y: string, u: Value, v: Value)
    requires x != y
    ensures Match([Var(x), Var(y)], [u, v], map[]) == Some(map[x := u, y := v])
  {
    MatchTwo(Var(x), Var(y), [u, v], map[]);
    MatchOne(Var(x), [u], map[]);
    MatchOne(Var(y), [v], map[x := u]);
    assert map[x := u][y := v] == map[x := u, y := v];
  }

  /** A final atom whose variables are both bound asks for one particular fact. */
  lemma JoinBoundPair(name: Relation, x: string, y: string, u: Value, v: Value, facts: set<Fact>)
    requires x != y
    ensures Joins([Atom(name, [Var(x), Var(y)])], NoGuard, facts, map[x := u, y := v]) <==> Fact(name, [u, v]) in facts
  {
    var b := map[x := u, y := v];
    var body := [Atom(name, [Var(x), Var(y)])];
    assert body[1..] == [];
    forall f: Fact ensures Match(body[0].terms, f.args, b) == if f.args == [u, v] then Some(b) else None {
      MatchTwo(Var(x), Var(y), f.args, b);
      if |f.args| == 2 {
        MatchOne(Var(x), [f.args[0]], b);
        MatchOne(Var(y), [f.args[1]], b);
        assert f.args == [f.args[0], f.args[1]];
        assert f.args[0] == u ==> b[x := u] == b;
        assert f.args[1] == v ==> b[y := v] == b;
      }
    }
    if Fact(name, [u, v]) in facts {
      assert Match(body[0].terms, Fact(name, [u, v]).args, b) == Some(b);
    }
    forall f | f in facts && f.name == name && f.args == [u, v] ensures f == Fact(name, [u, v]) {
    }
  }

  /** `p($x, $y), q($x, $y)`: some pair is in both relations. */
  lemma SamePairJoin(p: Relation, q: Relation, x: string, y: string, facts: set<Fact>)
    requires x != y
    ensures Holds(Query([Atom(p, [Var(x), Var(y)]), Atom(q, [Var(x), Var(y)])], NoGuard), facts) <==>
      exists u, v :: Fact(p, [u, v]) in facts && Fact(q, [u, v]) in facts
  {
    var rest := [Atom(q, [Var(x), Var(y)])];
    assert [Atom(p, [Var(x), Var(y)])] + rest == [Atom(p, [Var(x), Var(y)]), Atom(q, [Var(x), Var(y)])];
    JoinFreshPair(p, x, y, rest, NoGuard, facts);
    forall u, v
      ensures Joins(rest, NoGuard, facts, map[x := u, y := v]) <==> Fact(q, [u, v]) in facts
    {
      JoinBoundPair(q, x, y, u, v, facts);
    }
  }

  /** A final atom with its first variable bound and its second one free. */
  lemma JoinHalfBound(name: Relation, x: string, y: string, u: Value, facts: set<Fact>)
    requires x != y
    ensures Joins([Atom(name, [Var(x), Var(y)])], NoGuard, facts, map[x := u])
       <==> (exists v :: Fact(name, [u, v]) in facts)
  {
    var b := map[x := u];
    var body := [Atom(name, [Var(x), Var(y)])];
    assert body[1..] == [];
    forall f: Fact
      ensures Match(body[0].terms, f.args, b).Some? <==> |f.args| == 2 && f.args[0] == u
    {
      MatchTwo(Var(x), Var(y), f.args, b);
      if |f.args| == 2 {
        MatchOne(Var(x), [f.args[0]], b);
        MatchOne(Var(y), [f.args[1]], b[x := f.args[0]]);
      }
    }
    if v :| Fact(name, [u, v]) in facts {
      assert Match(body[0].terms, Fact(name, [u, v]).args, b).Some?;
    }
    forall f | f in facts && f.name == name && |f.args| == 2 && f.args[0] == u
      ensures Fact(name, [u, f.args[1]]) in facts
    {
      assert f.args == [u, f.args[1]];
    }
  }

  /** `p($x, c), q($x, $y)`: some first argument that `p` pairs with the constant occurs in `q`. */
  lemma ConstantJoin(p: Relation, c: Value, q: Relation, x: string, y: string, facts: set<Fact>)
    requires x != y
    ensures Holds(Query([Atom(p, [Var(x), Lit(c)]), Atom(q, [Var(x), Var(y)])], NoGuard), facts) <==>
      exists u, v :: Fact(p, [u, c]) in facts && Fact(q, [u, v]) in facts
  {
    var rest := [Atom(q, [Var(x), Var(y)])];
    var body := [Atom(p, [Var(x), Lit(c)])] + rest;
    assert body == [Atom(p, [Var(x), Lit(c)]), Atom(q, [Var(x), Var(y)])];
    assert body[1..] == rest;
    forall f: Fact
      ensures Match(body[0].terms, f.args, map[])
        == if |f.args| == 2 && f.args[1] == c then Some(map[x := f.args[0]]) else None
    {
      MatchTwo(Var(x), Lit(c), f.args, map[]);
      if |f.args| == 2 {
        MatchOne(Var(x), [f.args[0]], map[]);
        MatchOne(Lit(c), [f.args[1]], map[x := f.args[0]]);
      }
    }
    forall u ensures Joins(rest, NoGuard, facts, map[x := u]) <==> exists v :: Fact(q, [u, v]) in facts {
      JoinHalfBound(q, x, y, u, facts);
    }
    if u, v :| Fact(p, [u, c]) in facts && Fact(q, [u, v]) in facts {
      assert Match(body[0].terms, Fact(p, [u, c]).args, map[]) == Some(map[x := u]);
    }
    forall f | f in facts && f.name == p && |f.args| == 2 && f.args[1] == c
      ensures Fact(p, [f.args[0], c]) in facts
    {
      assert f.args == [f.args[0], c];
    }
  }

  /** `p(c)`. */
  lemma ConstantQuery(p: Relation, c: Value, facts: set<Fact>)
    ensures Holds(Query([Atom(p, [Lit(c)])], NoGuard), facts) <==> Fact(p, [c]) in facts
  {
    var body := [Atom(p, [Lit(c)])];
    assert body[1..] == [];
    forall f: Fact ensures Match(body[0].terms, f.args, map[]).Some? <==> f.args == [c] {
      MatchOne(Lit(c), f.args, map[]);
    }
    if Fact(p, [c]) in facts {
      assert Match(body[0].terms, Fact(p, [c]).args, map[]).Some?;
    }
    forall f | f in facts && f.name == p && f.args == [c] ensures f == Fact(p, [c]) {
    }
    assert Joins(body, NoGuard, facts, map[]) <==> Fact(p, [c]) in facts;
  }

  /** `p($x), $x <= limit`. */
  lemma DateQuery(p: Relation, x: string, limit: int, facts: set<Fact>)
    ensures Holds(Query([Atom(p, [Var(x)])], NotAfter(x, limit)), facts) <==>
      exists t :: Fact(p, [Date(t)]) in facts && t <= limit
  {
    var body := [Atom(p, [Var(x)])];
    assert body[1..] == [];
    forall f: Fact
      ensures Match(body[0].terms, f.args, map[]) == if |f.args| == 1 then Some(map[x := f.args[0]]) else None
    {
      MatchOne(Var(x), f.args, map[]);
    }
    if t :| Fact(p, [Date(t)]) in facts && t <= limit {
      assert Match(body[0].terms, Fact(p, [Date(t)]).args, map[]) == Some(map[x := Date(t)]);
    }
    forall f | f in facts && f.name == p && |f.args| == 1 && f.args[0].Date?
      ensures Fact(p, [Date(f.args[0].t)]) in facts
    {
      assert f.args == [f.args[0]];
    }
    assert Joins(body, NotAfter(x, limit), facts, map[]) <==> exists t :: Fact(p, [Date(t)]) in facts && t <= limit;
  }
}
