/**
  Soundness of the raw-SQL checker: in every run of a file, whatever the outside
  world answers and whichever functions it calls back, an accepted argument carries
  the one text that the file spells.
 */
module RawSqlSoundness {
  import opened Wrappers
  import opened RawSqlSyntax
  import opened RawSqlChecker
  import opened RawSqlSemantics

  // ----- where a node stands -----

  /** A node at one place in the file, with the names that some declaration around that place binds. */
  datatype Site = Site(node: Node, scope: set<string>)

  function ParametersOf(kids: seq<Node>): set<string> {
    set name | name in ParameterNames(kids)
  }

  /** The names bound around a node's children: functions, blocks and other syntax open scopes. */
  function KidScope(n: Node, scope: set<string>): set<string> {
    match n.kind
    case FunctionExpr => scope + (VarNamesAll(BodyOf(n.kids)) + ParametersOf(n.kids)) + LexicalNames(BodyOf(n.kids))
    case Block => scope + LexicalNames(n.kids)
    case Other => scope + LexicalNames(n.kids)
    case _ => scope
  }

  function Sites(n: Node, scope: set<string>): set<Site>
    decreases n, 1
  {
    {Site(n, scope)} + SitesAll(n.kids, KidScope(n, scope))
  }

  function SitesAll(ns: seq<Node>, scope: set<string>): set<Site>
    decreases ns, 0
  {
    if ns == [] then {} else Sites(ns[0], scope) + SitesAll(ns[1..], scope)
  }

  function FileScope(root: Node): set<string> {
    VarNamesAll(root.kids) + LexicalNames(root.kids)
  }

  function SitesOf(root: Node): set<Site> {
    SitesAll(root.kids, FileScope(root))
  }

  lemma {:induction false} SitesAllContains(ns: seq<Node>, scope: set<string>, i: nat)
    requires i < |ns|
    ensures Sites(ns[i], scope) <= SitesAll(ns, scope)
  {
    if i > 0 {
      SitesAllContains(ns[1..], scope, i - 1);
    }
  }

  lemma {:induction false} SitesAreClosed(n: Node, scope: set<string>, s: Site, i: nat)
    requires s in Sites(n, scope) && i < |s.node.kids|
    ensures Site(s.node.kids[i], KidScope(s.node, s.scope)) in Sites(n, scope)
    decreases n, 1
  {
    if s == Site(n, scope) {
      SitesAllContains(n.kids, KidScope(n, scope), i);
    } else {
      SitesAllAreClosed(n.kids, KidScope(n, scope), s, i);
    }
  }

  lemma {:induction false} SitesAllAreClosed(ns: seq<Node>, scope: set<string>, s: Site, i: nat)
    requires s in SitesAll(ns, scope) && i < |s.node.kids|
    ensures Site(s.node.kids[i], KidScope(s.node, s.scope)) in SitesAll(ns, scope)
    decreases ns, 0
  {
    if s in Sites(ns[0], scope) {
      SitesAreClosed(ns[0], scope, s, i);
    } else {
      SitesAllAreClosed(ns[1..], scope, s, i);
    }
  }

  /** The sites of a tree are sites of its nodes. */
  lemma {:induction false} SiteIsInTree(n: Node, scope: set<string>, s: Site)
    requires s in Sites(n, scope)
    ensures s.node in Preorder(n)
    decreases n, 1
  {
    if s != Site(n, scope) {
      SiteIsInTrees(n.kids, KidScope(n, scope), s);
    }
  }

  lemma {:induction false} SiteIsInTrees(ns: seq<Node>, scope: set<string>, s: Site)
    requires s in SitesAll(ns, scope)
    ensures s.node in PreorderAll(ns)
    decreases ns, 0
  {
    if s in Sites(ns[0], scope) {
      SiteIsInTree(ns[0], scope, s);
    } else {
      SiteIsInTrees(ns[1..], scope, s);
    }
  }

  // ----- the invariant -----

  /**
    What the proof needs to know about a file: a set of sites that contains those of
    every site's children, the names that can only ever hold one text, the names that a
    `var` declares, which read as `undefined` until their initializer has run, and the
    names that the file may read without declaring them.
   */
  datatype Facts = Facts(sites: set<Site>, fixed: map<string, string>, hoisted: set<string>, ambient: set<string>)
  {
    ghost predicate Valid() {
      && (forall s, i :: s in sites && 0 <= i < |s.node.kids| ==>
            Site(s.node.kids[i], KidScope(s.node, s.scope)) in sites)
      && (forall s, name :: s in sites && Rebinds(s.node, name) ==> name !in fixed)
      && (forall s :: s in sites && s.node.kind.VarDecl? && s.node.kind.name in fixed ==>
            && s.node.kids != [] && IsStaticConcat(s.node.kids[0])
            && StaticText(s.node.kids[0]) == fixed[s.node.kind.name])
      && (forall s :: s in sites && s.node.kind.VarDecl? && s.node.kind.how.Var? ==> s.node.kind.name in hoisted)
    }

    ghost predicate HoldsFixed(name: string, v: Value) {
      name in fixed ==> v == Str(fixed[name]) || (v == Undefined && name in hoisted)
    }

    /** The name is bound around the place, or nothing outside the file binds it. */
    predicate Resolves(name: string, scope: set<string>) {
      name in scope || name !in ambient
    }

    /** An expression that the checker may accept evaluates to the text it spells. */
    ghost predicate ExprOk(n: Node, scope: set<string>, v: Value) {
      && (IsStaticConcat(n) ==> v == Str(StaticText(n)))
      && (n.kind.PrimitiveLit? ==> v == Literal(n.kind.primitive))
      && (n.kind.Identifier? && Resolves(n.kind.name, scope) ==> HoldsFixed(n.kind.name, v))
    }

    ghost predicate ValueOk(n: Node, scope: set<string>, v: Value) {
      && ExprOk(n, scope, v)
      && (n.kind.ObjectLit? && HasOneText(n.kids) ==>
            && v.Record?
            && Lookup(v.fields, "text").Some?
            && TextPropertyValue(n.kids).Some?
            && ExprOk(TextPropertyValue(n.kids).value, scope, Lookup(v.fields, "text").value))
    }

    ghost predicate EventAt(e: CallEvent, scope: set<string>) {
      && Site(e.call, scope) in sites
      && |e.call.kids| == |e.arguments| + 1
      && forall i :: 0 <= i < |e.arguments| ==> ValueOk(e.call.kids[i + 1], scope, e.arguments[i])
    }

    ghost predicate EventOk(e: CallEvent) {
      exists scope :: EventAt(e, scope)
    }

    /** A closure's environment binds every name that is bound around its code. */
    ghost predicate ClosureOk(c: Closure) {
      c.code.kind.FunctionExpr? && exists scope :: Site(c.code, scope) in sites && scope <= c.env.Keys
    }

    /** The invariant of every reachable state. */
    ghost predicate Inv(st: State) {
      && (forall c :: c in st.closures ==> ClosureOk(c))
      && (forall at :: at in st.cells && st.cells[at].Holds? ==> HoldsFixed(at.name, st.cells[at].value))
      && (forall e :: e in st.log ==> EventOk(e))
    }

    /** The nodes stand where these names are bound, and the environment binds them. */
    ghost predicate Stand(ns: seq<Node>, scope: set<string>, env: Env) {
      scope <= env.Keys && forall i :: 0 <= i < |ns| ==> Site(ns[i], scope) in sites
    }
  }

  /** The property may set `text`: under that name, or as a spread, a computed key, an accessor or a method. */
  predicate AddsText(p: Node) {
    match p.kind
    case PropertyAssignment(key) => key == "text"
    case ShorthandProperty(name) => name == "text"
    case _ => true
  }

  predicate NoText(properties: seq<Node>) {
    forall i :: 0 <= i < |properties| ==> !AddsText(properties[i])
  }

  /** Nothing after the first `text` property can overwrite it. What comes before it does not matter. */
  predicate HasOneText(properties: seq<Node>) {
    properties != [] &&
    if IsTextProperty(properties[0]) then NoText(properties[1..]) else HasOneText(properties[1..])
  }

  lemma {:induction false} OneTextIsFound(properties: seq<Node>)
    requires HasOneText(properties)
    ensures TextPropertyValue(properties).Some?
  {
    if !IsTextProperty(properties[0]) {
      OneTextIsFound(properties[1..]);
    }
  }

  lemma {:induction false} LookupStep(fields: seq<Field>, next: Field, key: string)
    ensures Lookup(fields + [next], key) == if next.key == key then Some(next.value) else Lookup(fields, key)
  {
    assert (fields + [next])[..|fields|] == fields;
  }

  lemma {:induction false} ParametersAreParameters(f: Facts, kids: seq<Node>, scope: set<string>)
    requires f.Valid() && forall i :: 0 <= i < |kids| ==> Site(kids[i], scope) in f.sites
    ensures forall name :: name in ParameterNames(kids) ==> name !in f.fixed
    ensures forall i :: 0 <= i < |BodyOf(kids)| ==> Site(BodyOf(kids)[i], scope) in f.sites
  {
    if kids != [] && kids[0].kind.Parameter? {
      assert Rebinds(Site(kids[0], scope).node, kids[0].kind.name);
      ParametersAreParameters(f, kids[1..], scope);
    }
  }

  lemma {:induction false} BindParametersKeeps(f: Facts, st: State, scope: nat, names: seq<string>,
      arguments: seq<Value>)
    requires f.Inv(st) && forall name :: name in names ==> name !in f.fixed
    ensures f.Inv(BindParameters(st, scope, names, arguments))
    decreases names
  {
    if names != [] {
      var v := if arguments == [] then Undefined else arguments[0];
      BindParametersKeeps(f, st.(cells := st.cells[Location(names[0], scope) := Holds(v)]), scope, names[1..],
                          if arguments == [] then [] else arguments[1..]);
    }
  }

  lemma {:induction false} VarNamesAreHoisted(f: Facts, n: Node, scope: set<string>)
    requires f.Valid() && Site(n, scope) in f.sites
    ensures VarNames(n) <= f.hoisted
    decreases n, 1
  {
    forall i | 0 <= i < |n.kids| ensures Site(n.kids[i], KidScope(n, scope)) in f.sites {
      assert Site(n, scope).node.kids[i] == n.kids[i];
    }
    VarNamesAllAreHoisted(f, n.kids, KidScope(n, scope));
    assert Site(n, scope).node == n;
  }

  lemma {:induction false} VarNamesAllAreHoisted(f: Facts, ns: seq<Node>, scope: set<string>)
    requires f.Valid() && forall i :: 0 <= i < |ns| ==> Site(ns[i], scope) in f.sites
    ensures VarNamesAll(ns) <= f.hoisted
    decreases ns, 0
  {
    if ns != [] {
      VarNamesAreHoisted(f, ns[0], scope);
      VarNamesAllAreHoisted(f, ns[1..], scope);
    }
  }

  /** The rule accepts no expression of these kinds, so their values are unconstrained. */
  predicate Unconstrained(n: Node) {
    match n.kind
    case StringLit(_) => false
    case PrimitiveLit(_) => false
    case Identifier(_) => false
    case Binary(op) => !op.Plus?
    case ObjectLit => false
    case _ => true
  }

  /** The children of a node that opens no scope stand where it does. */
  lemma {:induction false} KidsStand(f: Facts, n: Node, scope: set<string>, env: Env)
    requires f.Valid() && f.Stand([n], scope, env)
    ensures forall i :: 0 <= i < |n.kids| ==> Site(n.kids[i], KidScope(n, scope)) in f.sites
    ensures KidScope(n, scope) <= env.Keys ==> f.Stand(n.kids, KidScope(n, scope), env)
  {
    assert [n][0] == n;
    forall i | 0 <= i < |n.kids| ensures Site(n.kids[i], KidScope(n, scope)) in f.sites {
      assert Site(n, scope).node.kids[i] == n.kids[i];
    }
  }

  lemma {:induction false} EvalKeeps(f: Facts, n: Node, scope: set<string>, env: Env, st: State, fuel: nat)
    requires f.Valid() && f.Inv(st) && f.Stand([n], scope, env)
    ensures var r := Eval(n, env, f.ambient, st, fuel);
            f.Inv(r.st) && (r.outcome.Normal? ==> f.ValueOk(n, scope, r.outcome.value))
    decreases fuel, 2
  {
    if fuel > 0 {
      if Unconstrained(n) {
        EffectKeeps(f, n, scope, env, st, fuel);
      } else {
        match n.kind
        case StringLit(_) =>
        case PrimitiveLit(_) =>
        case Identifier(name) => ReadKeeps(f, name, scope, env, st, fuel - 1);
        case Binary(_) => PlusKeeps(f, n, scope, env, st, fuel);
        case ObjectLit =>
          KidsStand(f, n, scope, env);
          EvalObjectKeeps(f, n.kids, [], scope, env, st, fuel - 1);
      }
    }
  }

  lemma {:induction false} EffectKeeps(f: Facts, n: Node, scope: set<string>, env: Env, st: State, fuel: nat)
    requires f.Valid() && f.Inv(st) && f.Stand([n], scope, env) && Unconstrained(n) && fuel > 0
    ensures f.Inv(Eval(n, env, f.ambient, st, fuel).st)
    decreases fuel, 1
  {
    match n.kind
    case ShorthandProperty(name) => ReadKeeps(f, name, scope, env, st, fuel - 1);
    case Binary(_) => WriteKeeps(f, n, scope, env, st, fuel);
    case Unary(_) => WriteKeeps(f, n, scope, env, st, fuel);
    case PropertyAccess(member) => MemberKeeps(f, n, member, scope, env, st, fuel);
    case Call(_) => CallKeeps(f, n, scope, env, st, fuel);
    case FunctionExpr => ClosureKeeps(f, n, scope, env, st);
    case VarDecl(_, _) | Return | If | Block => StatementKeeps(f, n, scope, env, st, fuel);
    case PropertyAssignment(_) | Spread | Parameter(_) | Import(_, _) | Other | SourceFile =>
      EvalOtherKeeps(f, n, scope, env, st, fuel - 1);
  }

  lemma {:induction false} StatementKeeps(f: Facts, n: Node, scope: set<string>, env: Env, st: State, fuel: nat)
    requires f.Valid() && f.Inv(st) && f.Stand([n], scope, env) && fuel > 0
    requires n.kind.VarDecl? || n.kind.Return? || n.kind.If? || n.kind.Block?
    ensures f.Inv(Eval(n, env, f.ambient, st, fuel).st)
    decreases fuel, 0, 1
  {
    match n.kind
    case VarDecl(_, _) => DeclarationKeeps(f, n, scope, env, st, fuel);
    case Return => ReturnKeeps(f, n, scope, env, st, fuel);
    case If => IfKeeps(f, n, scope, env, st, fuel);
    case Block => BlockKeeps(f, n, scope, env, st, fuel);
  }

  lemma {:induction false} BlockKeeps(f: Facts, n: Node, scope: set<string>, env: Env, st: State, fuel: nat)
    requires f.Valid() && f.Inv(st) && f.Stand([n], scope, env) && n.kind.Block? && fuel > 0
    ensures f.Inv(EvalBlock(n.kids, env, f.ambient, st, fuel - 1).st)
    decreases fuel, 0, 0
  {
    BlockStands(f, n, scope, env);
    EvalBlockKeeps(f, n.kids, scope, env, st, fuel - 1);
  }

  lemma {:induction false} BlockStands(f: Facts, n: Node, scope: set<string>, env: Env)
    requires f.Valid() && f.Stand([n], scope, env) && n.kind.Block?
    ensures forall i :: 0 <= i < |n.kids| ==> Site(n.kids[i], scope + LexicalNames(n.kids)) in f.sites
  {
    KidsStand(f, n, scope, env);
    assert KidScope(n, scope) == scope + LexicalNames(n.kids);
  }

  lemma {:induction false} ClosureKeeps(f: Facts, n: Node, scope: set<string>, env: Env, st: State)
    requires f.Inv(st) && f.Stand([n], scope, env) && n.kind.FunctionExpr?
    ensures f.Inv(st.(closures := st.closures + [Closure(n, env)]))
  {
    assert [n][0] == n;
    assert f.ClosureOk(Closure(n, env));
  }

  lemma {:induction false} ReturnKeeps(f: Facts, n: Node, scope: set<string>, env: Env, st: State, fuel: nat)
    requires f.Valid() && f.Inv(st) && f.Stand([n], scope, env) && n.kind.Return? && fuel > 0
    ensures f.Inv(EvalReturn(n, env, f.ambient, st, fuel).st)
    decreases fuel, 0, 0
  {
    KidsStand(f, n, scope, env);
    EvalAllKeeps(f, n.kids, scope, env, st, fuel - 1);
  }

  /** Assignments, `++` and `--`: the name they target is never a fixed one. */
  lemma {:induction false} WriteKeeps(f: Facts, n: Node, scope: set<string>, env: Env, st: State, fuel: nat)
    requires f.Valid() && f.Inv(st) && f.Stand([n], scope, env) && (n.kind.Unary? || n.kind.Binary?) && fuel > 0
    ensures f.Inv(EvalWrite(n, env, f.ambient, st, fuel).st)
    decreases fuel, 0
  {
    KidsStand(f, n, scope, env);
    if n.kind.Binary? && n.kind.op.Assigning? && |n.kids| == 2 && n.kids[0].kind.Identifier? {
      WriteTargetsNoFixed(f, n, scope, env);
      EvalKeeps(f, n.kids[1], scope, env, st, fuel - 1);
      ConsultKeeps(f, Eval(n.kids[1], env, f.ambient, st, fuel - 1).st, fuel - 1);
    } else if n.kind.Unary? && !n.kind.uop.OtherUnary? && n.kids != [] && n.kids[0].kind.Identifier? {
      WriteTargetsNoFixed(f, n, scope, env);
      ConsultKeeps(f, st, fuel - 1);
    } else {
      EvalOtherKeeps(f, n, scope, env, st, fuel - 1);
    }
  }

  lemma {:induction false} WriteTargetsNoFixed(f: Facts, n: Node, scope: set<string>, env: Env)
    requires f.Valid() && f.Stand([n], scope, env) && n.kids != [] && n.kids[0].kind.Identifier?
    requires (n.kind.Binary? && n.kind.op.Assigning?) || (n.kind.Unary? && !n.kind.uop.OtherUnary?)
    ensures n.kids[0].kind.name !in f.fixed
  {
    assert [n][0] == n;
    assert Rebinds(Site(n, scope).node, n.kids[0].kind.name);
  }

  lemma {:induction false} MemberKeeps(f: Facts, n: Node, member: string, scope: set<string>, env: Env, st: State,
      fuel: nat)
    requires f.Valid() && f.Inv(st) && f.Stand([n], scope, env) && n.kind.PropertyAccess? && fuel > 0
    ensures f.Inv(EvalMember(n, member, env, f.ambient, st, fuel).st)
    decreases fuel, 0
  {
    KidsStand(f, n, scope, env);
    EvalAllKeeps(f, n.kids, scope, env, st, fuel - 1);
    ConsultKeeps(f, EvalAll(n.kids, env, f.ambient, st, fuel - 1).st, fuel - 1);
  }

  lemma {:induction false} AssignKeeps(f: Facts, st: State, env: Env, name: string, v: Value)
    requires f.Inv(st) && f.HoldsFixed(name, v)
    ensures f.Inv(Assign(st, env, name, v))
  {}

  /** The only declaration of a fixed name stores the name's text. */
  lemma {:induction false} DeclarationKeeps(f: Facts, n: Node, scope: set<string>, env: Env, st: State, fuel: nat)
    requires f.Valid() && f.Inv(st) && f.Stand([n], scope, env) && n.kind.VarDecl? && fuel > 0
    ensures f.Inv(EvalDeclaration(n, n.kind.name, env, f.ambient, st, fuel).st)
    decreases fuel, 0, 0
  {
    KidsStand(f, n, scope, env);
    assert [n][0] == n && Site(n, scope).node == n;
    var r := if n.kids == [] then Consult(f.ambient, st, fuel - 1) else Eval(n.kids[0], env, f.ambient, st, fuel - 1);
    if n.kids == [] {
      ConsultKeeps(f, st, fuel - 1);
    } else {
      EvalKeeps(f, n.kids[0], scope, env, st, fuel - 1);
    }
    if r.outcome.Normal? {
      AssignKeeps(f, r.st, env, n.kind.name, r.outcome.value);
    }
  }

  lemma {:induction false} PlusKeeps(f: Facts, n: Node, scope: set<string>, env: Env, st: State, fuel: nat)
    requires f.Valid() && f.Inv(st) && f.Stand([n], scope, env) && n.kind == Binary(Plus) && fuel > 0
    ensures var r := EvalPlus(n, env, f.ambient, st, fuel);
            f.Inv(r.st) && (r.outcome.Normal? && IsStaticConcat(n) ==> r.outcome.value == Str(StaticText(n)))
    decreases fuel, 0
  {
    KidsStand(f, n, scope, env);
    EvalAllKeeps(f, n.kids, scope, env, st, fuel - 1);
    var r := EvalAll(n.kids, env, f.ambient, st, fuel - 1);
    ConsultKeeps(f, r.st, fuel - 1);
    if IsStaticConcat(n) && r.outcome.Values? {
      assert f.ExprOk(n.kids[0], scope, r.outcome.values[0]) && f.ExprOk(n.kids[1], scope, r.outcome.values[1]);
    }
  }

  lemma {:induction false} IfKeeps(f: Facts, n: Node, scope: set<string>, env: Env, st: State, fuel: nat)
    requires f.Valid() && f.Inv(st) && f.Stand([n], scope, env) && n.kind.If? && fuel > 0
    ensures f.Inv(EvalIf(n, env, f.ambient, st, fuel).st)
    decreases fuel, 0, 0
  {
    KidsStand(f, n, scope, env);
    if n.kids != [] {
      EvalKeeps(f, n.kids[0], scope, env, st, fuel - 1);
      var r := Eval(n.kids[0], env, f.ambient, st, fuel - 1);
      if |n.kids| > 1 { EvalKeeps(f, n.kids[1], scope, env, r.st, fuel - 1); }
      if |n.kids| > 2 { EvalKeeps(f, n.kids[2], scope, env, r.st, fuel - 1); }
    }
  }

  lemma {:induction false} CallKeeps(f: Facts, n: Node, scope: set<string>, env: Env, st: State, fuel: nat)
    requires f.Valid() && f.Inv(st) && f.Stand([n], scope, env) && n.kind.Call? && fuel > 0
    ensures f.Inv(EvalCall(n, env, f.ambient, st, fuel).st)
    decreases fuel, 0
  {
    KidsStand(f, n, scope, env);
    EvalAllKeeps(f, n.kids, scope, env, st, fuel - 1);
    AfterArgumentsKeeps(f, n, scope, env, EvalAll(n.kids, env, f.ambient, st, fuel - 1), fuel - 1);
  }

  lemma {:induction false} AfterArgumentsKeeps(f: Facts, n: Node, scope: set<string>, env: Env, r: ListResult,
      fuel: nat)
    requires f.Valid() && f.Inv(r.st) && f.Stand([n], scope, env)
    requires r.outcome.Values? ==>
               && |r.outcome.values| == |n.kids|
               && forall i :: 0 <= i < |n.kids| ==> f.ValueOk(n.kids[i], scope, r.outcome.values[i])
    ensures f.Inv(AfterArguments(n, f.ambient, r, fuel).st)
    decreases fuel, 4
  {
    if r.outcome.Values? && r.outcome.values != [] {
      var arguments := r.outcome.values[1..];
      var logged := r.st.(log := r.st.log + [CallEvent(n, arguments)]);
      assert [n][0] == n;
      assert f.EventAt(CallEvent(n, arguments), scope);
      LoggingKeeps(f, r.st, CallEvent(n, arguments));
      if r.outcome.values[0].FunctionValue? {
        ApplyKeeps(f, r.outcome.values[0].index, arguments, logged, fuel);
      } else {
        ConsultKeeps(f, logged, fuel);
      }
    } else if r.outcome.Values? {
      ConsultKeeps(f, r.st, fuel);
    }
  }

  lemma {:induction false} LoggingKeeps(f: Facts, st: State, e: CallEvent)
    requires f.Inv(st) && f.EventOk(e)
    ensures f.Inv(st.(log := st.log + [e]))
  {}

  lemma {:induction false} EvalAllKeeps(f: Facts, ns: seq<Node>, scope: set<string>, env: Env, st: State, fuel: nat)
    requires f.Valid() && f.Inv(st) && f.Stand(ns, scope, env)
    ensures var r := EvalAll(ns, env, f.ambient, st, fuel);
            && f.Inv(r.st)
            && (r.outcome.Abrupt? ==> !r.outcome.outcome.Normal?)
            && (r.outcome.Values? ==>
              |r.outcome.values| == |ns| && forall i :: 0 <= i < |ns| ==> f.ValueOk(ns[i], scope, r.outcome.values[i]))
    decreases fuel, 2
  {
    if ns != [] && fuel > 0 {
      EvalKeeps(f, ns[0], scope, env, st, fuel - 1);
      EvalAllKeeps(f, ns[1..], scope, env, Eval(ns[0], env, f.ambient, st, fuel - 1).st, fuel - 1);
    }
  }

  /** What a property adds decides the object's `text`, if it can, and leaves it alone otherwise. */
  lemma {:induction false} TextAfterProperty(fields: seq<Field>, p: Node, v: Value)
    ensures !AddsText(p) ==> Lookup(fields + FieldsOf(p, v), "text") == Lookup(fields, "text")
    ensures IsTextProperty(p) ==> Lookup(fields + FieldsOf(p, v), "text") == Some(v)
  {
    if p.kind.PropertyAssignment? {
      LookupStep(fields, Field(p.kind.key, v), "text");
    } else if p.kind.ShorthandProperty? {
      LookupStep(fields, Field(p.kind.name, v), "text");
    }
  }

  function TargetOf(p: Node): Node {
    if (p.kind.PropertyAssignment? || p.kind.Spread?) && p.kids != [] then p.kids[0] else p
  }

  lemma {:induction false} PropertyKeeps(f: Facts, p: Node, scope: set<string>, env: Env, st: State, fuel: nat)
    requires f.Valid() && f.Inv(st) && f.Stand([p], scope, env)
    ensures var r := Eval(TargetOf(p), env, f.ambient, st, fuel);
            && f.Inv(r.st)
            && (r.outcome.Normal? && IsTextProperty(p) ==> f.ExprOk(PropertyValue(p), scope, r.outcome.value))
    decreases fuel, 3
  {
    KidsStand(f, p, scope, env);
    EvalKeeps(f, TargetOf(p), scope, env, st, fuel);
    if p.kind.ShorthandProperty? && fuel > 0 {
      ReadKeeps(f, p.kind.name, scope, env, st, fuel - 1);
    }
  }

  lemma {:induction false} EvalObjectKeeps(f: Facts, properties: seq<Node>, fields: seq<Field>, scope: set<string>,
      env: Env, st: State, fuel: nat)
    requires f.Valid() && f.Inv(st) && f.Stand(properties, scope, env)
    ensures var r := EvalObject(properties, fields, env, f.ambient, st, fuel);
            && f.Inv(r.st)
            && (r.outcome.Normal? ==> r.outcome.value.Record?)
            && (r.outcome.Normal? && NoText(properties) ==>
                  Lookup(r.outcome.value.fields, "text") == Lookup(fields, "text"))
            && (r.outcome.Normal? && HasOneText(properties) ==>
                  && Lookup(r.outcome.value.fields, "text").Some?
                  && TextPropertyValue(properties).Some?
                  && f.ExprOk(TextPropertyValue(properties).value, scope, Lookup(r.outcome.value.fields, "text").value))
    decreases fuel, 2
  {
    if properties != [] && fuel > 0 {
      var p := properties[0];
      PropertyKeeps(f, p, scope, env, st, fuel - 1);
      var r := Eval(TargetOf(p), env, f.ambient, st, fuel - 1);
      if r.outcome.Normal? {
        TextAfterProperty(fields, p, r.outcome.value);
        EvalObjectKeeps(f, properties[1..], fields + FieldsOf(p, r.outcome.value), scope, env, r.st, fuel - 1);
      }
    }
  }

  lemma {:induction false} ScopeKeeps(f: Facts, st: State, names: set<string>, cell: Cell)
    requires f.Inv(st) && (cell.Holds? ==> cell.value == Undefined && names <= f.hoisted)
    ensures f.Inv(Bind(st, names, cell))
  {}

  lemma {:induction false} EvalBlockKeeps(f: Facts, statements: seq<Node>, scope: set<string>, env: Env, st: State,
      fuel: nat)
    requires f.Valid() && f.Inv(st) && scope <= env.Keys
    requires forall i :: 0 <= i < |statements| ==> Site(statements[i], scope + LexicalNames(statements)) in f.sites
    ensures f.Inv(EvalBlock(statements, env, f.ambient, st, fuel).st)
    decreases fuel, 2
  {
    if fuel > 0 {
      var names := LexicalNames(statements);
      ScopeKeeps(f, st, names, Uninitialised);
      EvalAllKeeps(f, statements, scope + names, Extend(env, names, st.nextScope),
                   Bind(st, names, Uninitialised), fuel - 1);
    }
  }

  lemma {:induction false} OperandsStand(f: Facts, n: Node, scope: set<string>, env: Env, instance: nat)
    requires f.Valid() && f.Stand([n], scope, env) && !n.kind.FunctionExpr? && !n.kind.Block?
    ensures f.Stand(n.kids, KidScope(n, scope), Extend(env, LexicalNames(n.kids), instance))
  {
    KidsStand(f, n, scope, env);
    var inner := Extend(env, LexicalNames(n.kids), instance);
    assert scope <= inner.Keys && LexicalNames(n.kids) <= inner.Keys;
    if !n.kind.Other? { assert KidScope(n, scope) == scope; }
  }

  lemma {:induction false} EvalOtherKeeps(f: Facts, n: Node, scope: set<string>, env: Env, st: State, fuel: nat)
    requires f.Valid() && f.Inv(st) && f.Stand([n], scope, env) && !n.kind.FunctionExpr? && !n.kind.Block?
    ensures f.Inv(EvalOther(n, env, f.ambient, st, fuel).st)
    decreases fuel, 2
  {
    if fuel > 0 {
      var names := LexicalNames(n.kids);
      OperandsStand(f, n, scope, env, st.nextScope);
      ScopeKeeps(f, st, names, Uninitialised);
      SteerKeeps(f, n.kids, KidScope(n, scope), Extend(env, names, st.nextScope),
                 Bind(st, names, Uninitialised), fuel - 1);
    }
  }

  /** Whichever operands the world runs and whatever it absorbs. */
  lemma {:induction false} SteerKeeps(f: Facts, operands: seq<Node>, scope: set<string>, env: Env, st: State, fuel: nat)
    requires f.Valid() && f.Inv(st) && f.Stand(operands, scope, env)
    ensures f.Inv(Steer(operands, env, f.ambient, st, fuel).st)
    decreases fuel, 2
  {
    if fuel > 0 && st.world != [] {
      var rest := st.(world := st.world[1..]);
      match st.world[0]
      case CallBack(index, arguments) =>
        ApplyKeeps(f, index, arguments, rest, fuel - 1);
        SteerKeeps(f, operands, scope, env, Apply(index, arguments, f.ambient, rest, fuel - 1).st, fuel - 1);
      case Operand(index, _) =>
        if index < |operands| {
          EvalKeeps(f, operands[index], scope, env, rest, fuel - 1);
          SteerKeeps(f, operands, scope, env, Eval(operands[index], env, f.ambient, rest, fuel - 1).st, fuel - 1);
        } else {
          SteerKeeps(f, operands, scope, env, rest, fuel - 1);
        }
      case _ =>
    }
  }

  lemma {:induction false} ReadKeeps(f: Facts, name: string, scope: set<string>, env: Env, st: State, fuel: nat)
    requires f.Valid() && f.Inv(st) && scope <= env.Keys
    ensures var r := Read(name, env, f.ambient, st, fuel);
            f.Inv(r.st) && (r.outcome.Normal? && f.Resolves(name, scope) ==> f.HoldsFixed(name, r.outcome.value))
    decreases fuel, 2
  {
    if fuel > 0 && name !in env && name in f.ambient {
      ConsultKeeps(f, st, fuel - 1);
    }
  }

  /** Arguments and hoisted variables land in cells of names that are not fixed, or hold `undefined`. */
  lemma {:induction false} ActivationKeeps(f: Facts, closure: Closure, scope: set<string>, arguments: seq<Value>,
      st: State)
    requires f.Valid() && f.Inv(st) && closure.code.kind.FunctionExpr?
    requires Site(closure.code, scope) in f.sites && scope <= closure.env.Keys
    ensures f.Inv(Activated(closure, arguments, st))
    ensures forall i :: 0 <= i < |BodyOf(closure.code.kids)| ==>
              Site(BodyOf(closure.code.kids)[i], KidScope(closure.code, scope)) in f.sites
  {
    var kids := closure.code.kids;
    KidsStand(f, closure.code, scope, closure.env);
    ParametersAreParameters(f, kids, KidScope(closure.code, scope));
    VarNamesAllAreHoisted(f, BodyOf(kids), KidScope(closure.code, scope));
    ScopeKeeps(f, st, VariablesOf(closure), Holds(Undefined));
    BindParametersKeeps(f, Bind(st, VariablesOf(closure), Holds(Undefined)), st.nextScope,
                        ParameterNames(kids), arguments);
  }

  lemma {:induction false} ApplyKeeps(f: Facts, index: nat, arguments: seq<Value>, st: State, fuel: nat)
    requires f.Valid() && f.Inv(st)
    ensures f.Inv(Apply(index, arguments, f.ambient, st, fuel).st)
    decreases fuel, 2
  {
    if fuel > 0 && index < |st.closures| {
      var closure := st.closures[index];
      assert closure in st.closures;
      var scope :| Site(closure.code, scope) in f.sites && scope <= closure.env.Keys;
      ActivationKeeps(f, closure, scope, arguments, st);
      EvalBlockKeeps(f, BodyOf(closure.code.kids), scope + (VariablesOf(closure) + ParametersOf(closure.code.kids)),
                     ScopeOf(closure, st.nextScope), Activated(closure, arguments, st), fuel - 1);
    }
  }

  lemma {:induction false} ConsultKeeps(f: Facts, st: State, fuel: nat)
    requires f.Valid() && f.Inv(st)
    ensures f.Inv(Consult(f.ambient, st, fuel).st)
    decreases fuel, 3
  {
    SteerKeeps(f, [], {}, map[], st, fuel);
  }

  // ----- the facts of a file, and the theorem -----

  function DeclaredNames(root: Node): set<string> {
    set n | n in Preorder(root) && n.kind.VarDecl? :: n.kind.name
  }

  function FactsOf(root: Node, ambient: set<string>): Facts {
    Facts(SitesOf(root),
          map name | name in DeclaredNames(root) && ResolvesToStatic(name, root) ::
            StaticText(ResolveInit(name, root).value),
          set n | n in Preorder(root) && n.kind.VarDecl? && n.kind.how.Var? :: n.kind.name,
          ambient)
  }

  lemma {:induction false} DeclarationsIff(name: string, ns: seq<Node>, d: Node)
    ensures d in Declarations(name, ns) <==> d in ns && Declares(d, name)
  {
    if ns != [] {
      DeclarationsIff(name, ns[1..], d);
      assert d in ns <==> d == ns[0] || d in ns[1..];
    }
  }

  /** Resolution names the initializer of every declaration of the name, and nothing rebinds it. */
  lemma {:induction false} ResolutionIsUnique(name: string, root: Node, d: Node)
    requires ResolvesToStatic(name, root) && d in Preorder(root) && Declares(d, name)
    ensures d.kids != [] && ResolveInit(name, root) == Some(d.kids[0])
  {
    var ds := Declarations(name, Preorder(root));
    DeclarationsIff(name, Preorder(root), d);
    assert |ds| == 1;
    assert ds[0] == d;
  }

  lemma {:induction false} ResolvedIsDeclared(name: string, root: Node)
    requires ResolvesToStatic(name, root)
    ensures name in DeclaredNames(root)
  {
    var ds := Declarations(name, Preorder(root));
    DeclarationsIff(name, Preorder(root), ds[0]);
    assert ds[0] in ds;
  }

  lemma {:induction false} SiteNodes(root: Node)
    ensures forall s :: s in SitesOf(root) ==> s.node in Preorder(root)
  {
    forall s | s in SitesOf(root) ensures s.node in Preorder(root) {
      SiteIsInTrees(root.kids, FileScope(root), s);
    }
  }

  lemma {:induction false} FactsAreValid(root: Node, ambient: set<string>)
    ensures FactsOf(root, ambient).Valid()
  {
    var f := FactsOf(root, ambient);
    SiteNodes(root);
    forall s, i | s in f.sites && 0 <= i < |s.node.kids|
      ensures Site(s.node.kids[i], KidScope(s.node, s.scope)) in f.sites
    {
      SitesAllAreClosed(root.kids, FileScope(root), s, i);
    }
    forall s, name | s in f.sites && Rebinds(s.node, name) ensures name !in f.fixed {
      ReboundIff(name, Preorder(root));
    }
    forall s | s in f.sites && s.node.kind.VarDecl? && s.node.kind.name in f.fixed
      ensures && s.node.kids != [] && IsStaticConcat(s.node.kids[0])
              && StaticText(s.node.kids[0]) == f.fixed[s.node.kind.name]
    {
      ResolutionIsUnique(s.node.kind.name, root, s.node);
    }
  }

  lemma {:induction false} EventLoopKeeps(f: Facts, st: State, fuel: nat)
    requires f.Valid() && f.Inv(st)
    ensures f.Inv(EventLoop(f.ambient, st, fuel))
    decreases fuel
  {
    if fuel > 0 && st.world != [] {
      ConsultKeeps(f, st, fuel - 1);
      EventLoopKeeps(f, Consult(f.ambient, st, fuel - 1).st, fuel - 1);
    }
  }

  lemma {:induction false} EveryEventIsOk(root: Node, ambient: set<string>, world: seq<WorldStep>, fuel: nat,
      e: CallEvent)
    requires e in Run(root, ambient, world, fuel)
    ensures FactsOf(root, ambient).EventOk(e)
  {
    var f := FactsOf(root, ambient);
    FactsAreValid(root, ambient);
    var vars := VarNamesAll(root.kids);
    var env, begin := Extend(map[], vars, 0), Bind(Start(world), vars, Holds(Undefined));
    forall i | 0 <= i < |root.kids| ensures Site(root.kids[i], vars + LexicalNames(root.kids)) in f.sites {
      SitesAllContains(root.kids, FileScope(root), i);
    }
    VarNamesAllAreHoisted(f, root.kids, FileScope(root));
    ScopeKeeps(f, Start(world), vars, Holds(Undefined));
    EvalBlockKeeps(f, root.kids, vars, env, begin, fuel);
    EventLoopKeeps(f, EvalBlock(root.kids, env, ambient, begin, fuel).st, fuel);
  }

  /** The expression that carries the SQL text: the argument, or the `text` of an object. */
  function SqlExpression(kind: SinkKind, arg: Node): Node {
    if kind.QuerySink? && arg.kind.ObjectLit? && TextPropertyValue(arg.kids).Some?
    then TextPropertyValue(arg.kids).value else arg
  }

  /** The SQL text a sink receives at run time. */
  function SqlReceived(kind: SinkKind, arg: Node, v: Value): Value {
    if kind.QuerySink? && arg.kind.ObjectLit? then
      if v.Record? && Lookup(v.fields, "text").Some? then Lookup(v.fields, "text").value else Undefined
    else v
  }

  /** The one value that the file's own text fixes for an accepted argument. */
  function SpelledOut(kind: SinkKind, arg: Node, root: Node): Value
    requires ArgIsSafe(kind, arg, root)
  {
    var e := SqlExpression(kind, arg);
    if e.kind.PrimitiveLit? then Literal(e.kind.primitive)
    else if e.kind.Identifier? then Str(StaticText(ResolveInit(e.kind.name, root).value))
    else Str(StaticText(e))
  }

  /**
    The fragment the rule is sound on, all of it readable off the file. A bare
    identifier that an import or a global may also bind is used only where the file's
    own declaration is in scope, and nothing after an object's first `text` can
    overwrite it.
   */
  predicate InFragment(kind: SinkKind, call: Node, root: Node, ambient: set<string>)
    requires |call.kids| > 1
  {
    var e := SqlExpression(kind, call.kids[1]);
    && (e.kind.Identifier? && e.kind.name in ambient ==>
          forall s :: s in SitesOf(root) && s.node == call ==> e.kind.name in s.scope)
    && (kind.QuerySink? && call.kids[1].kind.ObjectLit? ==> HasOneText(call.kids[1].kids))
  }

  predicate DeclaredByVar(n: Node, root: Node) {
    n.kind.Identifier? && exists d :: d in Preorder(root) && d.kind == VarDecl(Var, n.kind.name)
  }

  /**
    Main theorem. In every run, every accepted sink call receives the text that the
    file spells out; only a bare identifier that a `var` declares may still be
    `undefined`, when the call runs before the declaration's initializer has.
   */
  lemma {:induction false} AcceptedSqlIsConstant(root: Node, ambient: set<string>, world: seq<WorldStep>, fuel: nat,
      e: CallEvent, kind: SinkKind)
    requires e in Run(root, ambient, world, fuel)
    requires SinkOf(e.call, SequelizeSinks(root)) == Some(kind)
    requires |e.call.kids| > 1 && ArgIsSafe(kind, e.call.kids[1], root) && InFragment(kind, e.call, root, ambient)
    ensures e.call in Preorder(root) && e.arguments != []
    ensures var received := SqlReceived(kind, e.call.kids[1], e.arguments[0]);
            || received == SpelledOut(kind, e.call.kids[1], root)
            || (received == Undefined && DeclaredByVar(SqlExpression(kind, e.call.kids[1]), root))
  {
    EveryEventIsOk(root, ambient, world, fuel, e);
    var f, arg := FactsOf(root, ambient), e.call.kids[1];
    SiteNodes(root);
    var scope :| f.EventAt(e, scope);
    assert Site(e.call, scope).node == e.call;
    assert f.ValueOk(arg, scope, e.arguments[0]);
    var sql := SqlExpression(kind, arg);
    if sql.kind.Identifier? {
      ResolvedIsDeclared(sql.kind.name, root);
      assert sql.kind.name in f.fixed;
    }
  }

  /**
    The guarantee of the command-line check: after a clean report, no world can make
    an uncommented sink call receive two different texts, in one run or in two.
   */
  lemma {:induction false} CleanFileSqlDoesNotDependOnTheWorld(root: Node, lines: seq<string>, ambient: set<string>,
      e1: CallEvent, e2: CallEvent, w1: seq<WorldStep>, w2: seq<WorldStep>, fuel1: nat, fuel2: nat, kind: SinkKind)
    requires Violations(Preorder(root), root, lines) == []
    requires e1 in Run(root, ambient, w1, fuel1) && e2 in Run(root, ambient, w2, fuel2) && e1.call == e2.call
    requires SinkOf(e1.call, SequelizeSinks(root)) == Some(kind) && |e1.call.kids| > 1
    requires InFragment(kind, e1.call, root, ambient)
    requires !Excuses(lines, e1.call.kind.line - 1) && !Excuses(lines, e1.call.kind.line - 2)
    ensures e1.arguments != [] && e2.arguments != []
    ensures var r1 := SqlReceived(kind, e1.call.kids[1], e1.arguments[0]);
            var r2 := SqlReceived(kind, e2.call.kids[1], e2.arguments[0]);
            || r1 == r2
            || ((r1 == Undefined || r2 == Undefined) && DeclaredByVar(SqlExpression(kind, e1.call.kids[1]), root))
  {
    CleanReportIff(root, lines);
    EveryEventIsOk(root, ambient, w1, fuel1, e1);
    SiteNodes(root);
    var scope :| FactsOf(root, ambient).EventAt(e1, scope);
    assert Site(e1.call, scope).node == e1.call;
    SinkCallIff(e1.call, root, kind);
    AcceptedSqlIsConstant(root, ambient, w1, fuel1, e1, kind);
    AcceptedSqlIsConstant(root, ambient, w2, fuel2, e2, kind);
  }
}
