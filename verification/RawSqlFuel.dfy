/**
  Fuel only decides how far a run gets: a computation that finishes within its fuel
  is the same with more of it, and one that does not has logged a prefix of what it
  logs with more. So nothing a program does is out of reach of the results about runs.
 */
module RawSqlFuel {
  import opened RawSqlSyntax
  import opened RawSqlSemantics

  ghost predicate Extends(less: Result, more: Result) {
    if less.outcome.OutOfFuel? then less.st.log <= more.st.log else more == less
  }

  ghost predicate ListExtends(less: ListResult, more: ListResult) {
    if less.outcome == Abrupt(OutOfFuel) then less.st.log <= more.st.log else more == less
  }

  // ----- the log only grows -----

  /** Nodes that evaluate in several stages. */
  predicate IsStaged(n: Node) {
    match n.kind
    case Binary(_) => true
    case Unary(_) => true
    case If => true
    case PropertyAccess(_) => true
    case Call(_) => true
    case VarDecl(_, _) => true
    case Return => true
    case _ => false
  }

  lemma {:induction false} EvalGrows(n: Node, env: Env, ambient: set<string>, st: State, fuel: nat)
    ensures st.log <= Eval(n, env, ambient, st, fuel).st.log
    decreases fuel, 2
  {
    if fuel > 0 {
      if IsStaged(n) {
        StagedGrows(n, env, ambient, st, fuel);
      } else {
        match n.kind
        case StringLit(_) =>
        case PrimitiveLit(_) =>
        case FunctionExpr =>
        case Identifier(name) => ReadGrows(name, env, ambient, st, fuel - 1);
        case ShorthandProperty(name) => ReadGrows(name, env, ambient, st, fuel - 1);
        case ObjectLit => EvalObjectGrows(n.kids, [], env, ambient, st, fuel - 1);
        case Block => EvalBlockGrows(n.kids, env, ambient, st, fuel - 1);
        case PropertyAssignment(_) | Spread | Parameter(_) | Import(_, _) | Other | SourceFile =>
          EvalOtherGrows(n, env, ambient, st, fuel - 1);
      }
    }
  }

  lemma {:induction false} StagedGrows(n: Node, env: Env, ambient: set<string>, st: State, fuel: nat)
    requires fuel > 0 && IsStaged(n)
    ensures st.log <= Eval(n, env, ambient, st, fuel).st.log
    decreases fuel, 1
  {
    match n.kind
    case Binary(op) =>
      if op.Plus? { PlusGrows(n, env, ambient, st, fuel); } else { WriteGrows(n, env, ambient, st, fuel); }
    case Unary(_) => WriteGrows(n, env, ambient, st, fuel);
    case If => IfGrows(n, env, ambient, st, fuel);
    case PropertyAccess(member) => MemberGrows(n, member, env, ambient, st, fuel);
    case Call(_) => CallGrows(n, env, ambient, st, fuel);
    case VarDecl(_, _) =>
      ConsultGrows(ambient, st, fuel - 1);
      if n.kids != [] { EvalGrows(n.kids[0], env, ambient, st, fuel - 1); }
    case Return => EvalAllGrows(n.kids, env, ambient, st, fuel - 1);
  }

  lemma {:induction false} PlusGrows(n: Node, env: Env, ambient: set<string>, st: State, fuel: nat)
    requires fuel > 0
    ensures st.log <= EvalPlus(n, env, ambient, st, fuel).st.log
    decreases fuel, 0
  {
    EvalAllGrows(n.kids, env, ambient, st, fuel - 1);
    ConsultGrows(ambient, EvalAll(n.kids, env, ambient, st, fuel - 1).st, fuel - 1);
  }

  lemma {:induction false} MemberGrows(n: Node, member: string, env: Env, ambient: set<string>, st: State, fuel: nat)
    requires fuel > 0
    ensures st.log <= EvalMember(n, member, env, ambient, st, fuel).st.log
    decreases fuel, 0
  {
    EvalAllGrows(n.kids, env, ambient, st, fuel - 1);
    ConsultGrows(ambient, EvalAll(n.kids, env, ambient, st, fuel - 1).st, fuel - 1);
  }

  lemma {:induction false} WriteGrows(n: Node, env: Env, ambient: set<string>, st: State, fuel: nat)
    requires fuel > 0
    ensures st.log <= EvalWrite(n, env, ambient, st, fuel).st.log
    decreases fuel, 0
  {
    if n.kind.Binary? && n.kind.op.Assigning? && |n.kids| == 2 && n.kids[0].kind.Identifier? {
      EvalGrows(n.kids[1], env, ambient, st, fuel - 1);
      ConsultGrows(ambient, Eval(n.kids[1], env, ambient, st, fuel - 1).st, fuel - 1);
    } else if n.kind.Unary? && !n.kind.uop.OtherUnary? && n.kids != [] && n.kids[0].kind.Identifier? {
      ConsultGrows(ambient, st, fuel - 1);
    } else {
      EvalOtherGrows(n, env, ambient, st, fuel - 1);
    }
  }

  lemma {:induction false} IfGrows(n: Node, env: Env, ambient: set<string>, st: State, fuel: nat)
    requires fuel > 0
    ensures st.log <= EvalIf(n, env, ambient, st, fuel).st.log
    decreases fuel, 0
  {
    if n.kids != [] {
      EvalGrows(n.kids[0], env, ambient, st, fuel - 1);
      var r := Eval(n.kids[0], env, ambient, st, fuel - 1);
      if |n.kids| > 1 { EvalGrows(n.kids[1], env, ambient, r.st, fuel - 1); }
      if |n.kids| > 2 { EvalGrows(n.kids[2], env, ambient, r.st, fuel - 1); }
    }
  }

  lemma {:induction false} CallGrows(n: Node, env: Env, ambient: set<string>, st: State, fuel: nat)
    requires fuel > 0
    ensures st.log <= EvalCall(n, env, ambient, st, fuel).st.log
    decreases fuel, 0
  {
    EvalAllGrows(n.kids, env, ambient, st, fuel - 1);
    AfterArgumentsGrows(n, ambient, EvalAll(n.kids, env, ambient, st, fuel - 1), fuel - 1);
  }

  lemma {:induction false} AfterArgumentsGrows(n: Node, ambient: set<string>, r: ListResult, fuel: nat)
    ensures r.st.log <= AfterArguments(n, ambient, r, fuel).st.log
    decreases fuel, 2
  {
    if r.outcome.Values? && r.outcome.values != [] {
      var logged := r.st.(log := r.st.log + [CallEvent(n, r.outcome.values[1..])]);
      if r.outcome.values[0].FunctionValue? {
        ApplyGrows(r.outcome.values[0].index, r.outcome.values[1..], ambient, logged, fuel);
      } else {
        ConsultGrows(ambient, logged, fuel);
      }
    } else {
      ConsultGrows(ambient, r.st, fuel);
    }
  }

  lemma {:induction false} EvalOtherGrows(n: Node, env: Env, ambient: set<string>, st: State, fuel: nat)
    ensures st.log <= EvalOther(n, env, ambient, st, fuel).st.log
    decreases fuel, 0
  {
    if fuel > 0 {
      var names := LexicalNames(n.kids);
      SteerGrows(n.kids, Extend(env, names, st.nextScope), ambient, Bind(st, names, Uninitialised), fuel - 1);
    }
  }

  lemma {:induction false} SteerGrows(operands: seq<Node>, env: Env, ambient: set<string>, st: State, fuel: nat)
    ensures st.log <= Steer(operands, env, ambient, st, fuel).st.log
    decreases fuel, 0
  {
    if fuel > 0 && st.world != [] {
      var rest := st.(world := st.world[1..]);
      match st.world[0]
      case CallBack(index, arguments) =>
        ApplyGrows(index, arguments, ambient, rest, fuel - 1);
        SteerGrows(operands, env, ambient, Apply(index, arguments, ambient, rest, fuel - 1).st, fuel - 1);
      case Operand(index, _) =>
        if index < |operands| {
          EvalGrows(operands[index], env, ambient, rest, fuel - 1);
          SteerGrows(operands, env, ambient, Eval(operands[index], env, ambient, rest, fuel - 1).st, fuel - 1);
        } else {
          SteerGrows(operands, env, ambient, rest, fuel - 1);
        }
      case _ =>
    }
  }

  lemma {:induction false} ConsultGrows(ambient: set<string>, st: State, fuel: nat)
    ensures st.log <= Consult(ambient, st, fuel).st.log
    decreases fuel, 1
  {
    SteerGrows([], map[], ambient, st, fuel);
  }

  lemma {:induction false} EvalAllGrows(ns: seq<Node>, env: Env, ambient: set<string>, st: State, fuel: nat)
    ensures st.log <= EvalAll(ns, env, ambient, st, fuel).st.log
    decreases fuel, 0
  {
    if ns != [] && fuel > 0 {
      EvalGrows(ns[0], env, ambient, st, fuel - 1);
      EvalAllGrows(ns[1..], env, ambient, Eval(ns[0], env, ambient, st, fuel - 1).st, fuel - 1);
    }
  }

  lemma {:induction false} EvalObjectGrows(properties: seq<Node>, fields: seq<Field>, env: Env, ambient: set<string>,
      st: State, fuel: nat)
    ensures st.log <= EvalObject(properties, fields, env, ambient, st, fuel).st.log
    decreases fuel, 0
  {
    if properties != [] && fuel > 0 {
      var p := properties[0];
      var target := if (p.kind.PropertyAssignment? || p.kind.Spread?) && p.kids != [] then p.kids[0] else p;
      EvalGrows(target, env, ambient, st, fuel - 1);
      var r := Eval(target, env, ambient, st, fuel - 1);
      if r.outcome.Normal? {
        EvalObjectGrows(properties[1..], fields + FieldsOf(p, r.outcome.value), env, ambient, r.st, fuel - 1);
      }
    }
  }

  lemma {:induction false} EvalBlockGrows(statements: seq<Node>, env: Env, ambient: set<string>, st: State, fuel: nat)
    ensures st.log <= EvalBlock(statements, env, ambient, st, fuel).st.log
    decreases fuel, 0
  {
    if fuel > 0 {
      var inner := Extend(env, LexicalNames(statements), st.nextScope);
      EvalAllGrows(statements, inner, ambient, Bind(st, LexicalNames(statements), Uninitialised), fuel - 1);
    }
  }

  lemma {:induction false} ReadGrows(name: string, env: Env, ambient: set<string>, st: State, fuel: nat)
    ensures st.log <= Read(name, env, ambient, st, fuel).st.log
    decreases fuel, 0
  {
    if fuel > 0 { ConsultGrows(ambient, st, fuel - 1); }
  }

  lemma {:induction false} BindParametersKeepsLog(st: State, scope: nat, names: seq<string>, arguments: seq<Value>)
    ensures BindParameters(st, scope, names, arguments).log == st.log
    decreases names
  {
    if names != [] {
      var v := if arguments == [] then Undefined else arguments[0];
      BindParametersKeepsLog(st.(cells := st.cells[Location(names[0], scope) := Holds(v)]), scope, names[1..],
                             if arguments == [] then [] else arguments[1..]);
    }
  }

  lemma {:induction false} ApplyGrows(index: nat, arguments: seq<Value>, ambient: set<string>, st: State, fuel: nat)
    ensures st.log <= Apply(index, arguments, ambient, st, fuel).st.log
    decreases fuel, 0
  {
    if fuel > 0 && index < |st.closures| {
      var closure := st.closures[index];
      BindParametersKeepsLog(Bind(st, VariablesOf(closure), Holds(Undefined)), st.nextScope,
                             ParameterNames(closure.code.kids), arguments);
      EvalBlockGrows(BodyOf(closure.code.kids), ScopeOf(closure, st.nextScope), ambient,
                     Activated(closure, arguments, st), fuel - 1);
    }
  }

  // ----- one more unit of fuel -----

  lemma {:induction false} EvalExtends(n: Node, env: Env, ambient: set<string>, st: State, fuel: nat)
    ensures Extends(Eval(n, env, ambient, st, fuel), Eval(n, env, ambient, st, fuel + 1))
    decreases fuel, 3
  {
    if fuel == 0 {
      EvalGrows(n, env, ambient, st, 1);
    } else if IsStaged(n) {
      StagedExtends(n, env, ambient, st, fuel);
    } else {
      match n.kind
      case StringLit(_) =>
      case PrimitiveLit(_) =>
      case FunctionExpr =>
      case Identifier(name) => ReadExtends(name, env, ambient, st, fuel - 1);
      case ShorthandProperty(name) => ReadExtends(name, env, ambient, st, fuel - 1);
      case ObjectLit => EvalObjectExtends(n.kids, [], env, ambient, st, fuel - 1);
      case Block => EvalBlockExtends(n.kids, env, ambient, st, fuel - 1);
      case PropertyAssignment(_) | Spread | Parameter(_) | Import(_, _) | Other | SourceFile =>
        EvalOtherExtends(n, env, ambient, st, fuel - 1);
    }
  }

  lemma {:induction false} StagedExtends(n: Node, env: Env, ambient: set<string>, st: State, fuel: nat)
    requires fuel > 0 && IsStaged(n)
    ensures Extends(Eval(n, env, ambient, st, fuel), Eval(n, env, ambient, st, fuel + 1))
    decreases fuel, 1
  {
    match n.kind
    case Binary(op) =>
      if op.Plus? { PlusExtends(n, env, ambient, st, fuel); } else { WriteExtends(n, env, ambient, st, fuel); }
    case Unary(_) => WriteExtends(n, env, ambient, st, fuel);
    case If => IfExtends(n, env, ambient, st, fuel);
    case PropertyAccess(member) => MemberExtends(n, member, env, ambient, st, fuel);
    case Call(_) => CallExtends(n, env, ambient, st, fuel);
    case VarDecl(_, _) =>
      ConsultExtends(ambient, st, fuel - 1);
      if n.kids != [] { EvalExtends(n.kids[0], env, ambient, st, fuel - 1); }
    case Return => EvalAllExtends(n.kids, env, ambient, st, fuel - 1);
  }

  lemma {:induction false} PlusExtends(n: Node, env: Env, ambient: set<string>, st: State, fuel: nat)
    requires fuel > 0
    ensures Extends(EvalPlus(n, env, ambient, st, fuel), EvalPlus(n, env, ambient, st, fuel + 1))
    decreases fuel, 0
  {
    EvalAllExtends(n.kids, env, ambient, st, fuel - 1);
    ConsultExtends(ambient, EvalAll(n.kids, env, ambient, st, fuel - 1).st, fuel - 1);
    ConsultGrows(ambient, EvalAll(n.kids, env, ambient, st, fuel).st, fuel);
  }

  lemma {:induction false} MemberExtends(n: Node, member: string, env: Env, ambient: set<string>, st: State, fuel: nat)
    requires fuel > 0
    ensures Extends(EvalMember(n, member, env, ambient, st, fuel), EvalMember(n, member, env, ambient, st, fuel + 1))
    decreases fuel, 0
  {
    EvalAllExtends(n.kids, env, ambient, st, fuel - 1);
    ConsultExtends(ambient, EvalAll(n.kids, env, ambient, st, fuel - 1).st, fuel - 1);
    ConsultGrows(ambient, EvalAll(n.kids, env, ambient, st, fuel).st, fuel);
  }

  lemma {:induction false} WriteExtends(n: Node, env: Env, ambient: set<string>, st: State, fuel: nat)
    requires fuel > 0
    ensures Extends(EvalWrite(n, env, ambient, st, fuel), EvalWrite(n, env, ambient, st, fuel + 1))
    decreases fuel, 0
  {
    if n.kind.Binary? && n.kind.op.Assigning? && |n.kids| == 2 && n.kids[0].kind.Identifier? {
      EvalExtends(n.kids[1], env, ambient, st, fuel - 1);
      ConsultExtends(ambient, Eval(n.kids[1], env, ambient, st, fuel - 1).st, fuel - 1);
      ConsultGrows(ambient, Eval(n.kids[1], env, ambient, st, fuel).st, fuel);
    } else if n.kind.Unary? && !n.kind.uop.OtherUnary? && n.kids != [] && n.kids[0].kind.Identifier? {
      ConsultExtends(ambient, st, fuel - 1);
    } else {
      EvalOtherExtends(n, env, ambient, st, fuel - 1);
    }
  }

  lemma {:induction false} IfExtends(n: Node, env: Env, ambient: set<string>, st: State, fuel: nat)
    requires fuel > 0
    ensures Extends(EvalIf(n, env, ambient, st, fuel), EvalIf(n, env, ambient, st, fuel + 1))
    decreases fuel, 0
  {
    if n.kids != [] {
      EvalExtends(n.kids[0], env, ambient, st, fuel - 1);
      var less, more := Eval(n.kids[0], env, ambient, st, fuel - 1), Eval(n.kids[0], env, ambient, st, fuel);
      if |n.kids| > 1 {
        EvalExtends(n.kids[1], env, ambient, less.st, fuel - 1);
        EvalGrows(n.kids[1], env, ambient, more.st, fuel);
      }
      if |n.kids| > 2 {
        EvalExtends(n.kids[2], env, ambient, less.st, fuel - 1);
        EvalGrows(n.kids[2], env, ambient, more.st, fuel);
      }
    }
  }

  lemma {:induction false} CallExtends(n: Node, env: Env, ambient: set<string>, st: State, fuel: nat)
    requires fuel > 0
    ensures Extends(EvalCall(n, env, ambient, st, fuel), EvalCall(n, env, ambient, st, fuel + 1))
    decreases fuel, 0
  {
    EvalAllExtends(n.kids, env, ambient, st, fuel - 1);
    AfterArgumentsGrows(n, ambient, EvalAll(n.kids, env, ambient, st, fuel), fuel);
    AfterArgumentsExtends(n, ambient, EvalAll(n.kids, env, ambient, st, fuel - 1), fuel - 1);
  }

  lemma {:induction false} AfterArgumentsExtends(n: Node, ambient: set<string>, r: ListResult, fuel: nat)
    ensures Extends(AfterArguments(n, ambient, r, fuel), AfterArguments(n, ambient, r, fuel + 1))
    decreases fuel, 2
  {
    if r.outcome.Values? && r.outcome.values != [] {
      var logged := r.st.(log := r.st.log + [CallEvent(n, r.outcome.values[1..])]);
      if r.outcome.values[0].FunctionValue? {
        ApplyExtends(r.outcome.values[0].index, r.outcome.values[1..], ambient, logged, fuel);
      } else {
        ConsultExtends(ambient, logged, fuel);
      }
    } else {
      ConsultExtends(ambient, r.st, fuel);
    }
  }

  lemma {:induction false} EvalOtherExtends(n: Node, env: Env, ambient: set<string>, st: State, fuel: nat)
    ensures Extends(EvalOther(n, env, ambient, st, fuel), EvalOther(n, env, ambient, st, fuel + 1))
    decreases fuel, 0
  {
    EvalOtherGrows(n, env, ambient, st, fuel + 1);
    if fuel > 0 {
      var names := LexicalNames(n.kids);
      SteerExtends(n.kids, Extend(env, names, st.nextScope), ambient, Bind(st, names, Uninitialised), fuel - 1);
    }
  }

  lemma {:induction false} SteerExtends(operands: seq<Node>, env: Env, ambient: set<string>, st: State, fuel: nat)
    ensures Extends(Steer(operands, env, ambient, st, fuel), Steer(operands, env, ambient, st, fuel + 1))
    decreases fuel, 0
  {
    SteerGrows(operands, env, ambient, st, fuel + 1);
    if fuel > 0 && st.world != [] {
      var rest := st.(world := st.world[1..]);
      match st.world[0]
      case CallBack(index, arguments) => AfterCallBack(operands, env, ambient, index, arguments, rest, fuel);
      case Operand(index, _) =>
        if index < |operands| {
          AfterOperand(operands, env, ambient, index, rest, fuel);
        } else {
          SteerExtends(operands, env, ambient, rest, fuel - 1);
        }
      case _ =>
    }
  }

  lemma {:induction false} AfterCallBack(operands: seq<Node>, env: Env, ambient: set<string>, index: nat,
      arguments: seq<Value>, st: State, fuel: nat)
    requires fuel > 0
    ensures var less := Apply(index, arguments, ambient, st, fuel - 1);
            var more := Apply(index, arguments, ambient, st, fuel);
            && Extends(less, more)
            && more.st.log <= Steer(operands, env, ambient, more.st, fuel).st.log
            && Extends(Steer(operands, env, ambient, less.st, fuel - 1), Steer(operands, env, ambient, less.st, fuel))
    decreases fuel - 1, 5
  {
    ApplyExtends(index, arguments, ambient, st, fuel - 1);
    SteerGrows(operands, env, ambient, Apply(index, arguments, ambient, st, fuel).st, fuel);
    SteerExtends(operands, env, ambient, Apply(index, arguments, ambient, st, fuel - 1).st, fuel - 1);
  }

  lemma {:induction false} AfterOperand(operands: seq<Node>, env: Env, ambient: set<string>, index: nat, st: State,
      fuel: nat)
    requires fuel > 0 && index < |operands|
    ensures var less := Eval(operands[index], env, ambient, st, fuel - 1);
            var more := Eval(operands[index], env, ambient, st, fuel);
            && Extends(less, more)
            && more.st.log <= Steer(operands, env, ambient, more.st, fuel).st.log
            && Extends(Steer(operands, env, ambient, less.st, fuel - 1), Steer(operands, env, ambient, less.st, fuel))
    decreases fuel - 1, 5
  {
    EvalExtends(operands[index], env, ambient, st, fuel - 1);
    SteerGrows(operands, env, ambient, Eval(operands[index], env, ambient, st, fuel).st, fuel);
    SteerExtends(operands, env, ambient, Eval(operands[index], env, ambient, st, fuel - 1).st, fuel - 1);
  }

  lemma {:induction false} ConsultExtends(ambient: set<string>, st: State, fuel: nat)
    ensures Extends(Consult(ambient, st, fuel), Consult(ambient, st, fuel + 1))
    decreases fuel, 1
  {
    SteerExtends([], map[], ambient, st, fuel);
  }

  lemma {:induction false} EvalAllExtends(ns: seq<Node>, env: Env, ambient: set<string>, st: State, fuel: nat)
    ensures ListExtends(EvalAll(ns, env, ambient, st, fuel), EvalAll(ns, env, ambient, st, fuel + 1))
    decreases fuel, 0
  {
    EvalAllGrows(ns, env, ambient, st, fuel + 1);
    if ns != [] && fuel > 0 {
      EvalExtends(ns[0], env, ambient, st, fuel - 1);
      EvalAllExtends(ns[1..], env, ambient, Eval(ns[0], env, ambient, st, fuel - 1).st, fuel - 1);
      EvalAllGrows(ns[1..], env, ambient, Eval(ns[0], env, ambient, st, fuel).st, fuel);
    }
  }

  lemma {:induction false} EvalObjectExtends(properties: seq<Node>, fields: seq<Field>, env: Env, ambient: set<string>,
      st: State, fuel: nat)
    ensures Extends(EvalObject(properties, fields, env, ambient, st, fuel),
            EvalObject(properties, fields, env, ambient, st, fuel + 1))
    decreases fuel, 0
  {
    EvalObjectGrows(properties, fields, env, ambient, st, fuel + 1);
    if properties != [] && fuel > 0 {
      var p := properties[0];
      var target := if (p.kind.PropertyAssignment? || p.kind.Spread?) && p.kids != [] then p.kids[0] else p;
      EvalExtends(target, env, ambient, st, fuel - 1);
      var r, more := Eval(target, env, ambient, st, fuel - 1), Eval(target, env, ambient, st, fuel);
      if r.outcome.Normal? {
        EvalObjectExtends(properties[1..], fields + FieldsOf(p, r.outcome.value), env, ambient, r.st, fuel - 1);
      } else if more.outcome.Normal? {
        EvalObjectGrows(properties[1..], fields + FieldsOf(p, more.outcome.value), env, ambient, more.st, fuel);
      }
    }
  }

  lemma {:induction false} EvalBlockExtends(statements: seq<Node>, env: Env, ambient: set<string>, st: State, fuel: nat)
    ensures Extends(EvalBlock(statements, env, ambient, st, fuel), EvalBlock(statements, env, ambient, st, fuel + 1))
    decreases fuel, 0
  {
    EvalBlockGrows(statements, env, ambient, st, fuel + 1);
    if fuel > 0 {
      var inner := Extend(env, LexicalNames(statements), st.nextScope);
      EvalAllExtends(statements, inner, ambient, Bind(st, LexicalNames(statements), Uninitialised), fuel - 1);
    }
  }

  lemma {:induction false} ReadExtends(name: string, env: Env, ambient: set<string>, st: State, fuel: nat)
    ensures Extends(Read(name, env, ambient, st, fuel), Read(name, env, ambient, st, fuel + 1))
    decreases fuel, 0
  {
    ReadGrows(name, env, ambient, st, fuel + 1);
    if fuel > 0 { ConsultExtends(ambient, st, fuel - 1); }
  }

  lemma {:induction false} ApplyExtends(index: nat, arguments: seq<Value>, ambient: set<string>, st: State, fuel: nat)
    ensures Extends(Apply(index, arguments, ambient, st, fuel), Apply(index, arguments, ambient, st, fuel + 1))
    decreases fuel, 0
  {
    ApplyGrows(index, arguments, ambient, st, fuel + 1);
    if fuel > 0 && index < |st.closures| {
      var closure := st.closures[index];
      EvalBlockExtends(BodyOf(closure.code.kids), ScopeOf(closure, st.nextScope), ambient,
                       Activated(closure, arguments, st), fuel - 1);
    }
  }

  // ----- runs -----

  lemma {:induction false} EventLoopGrows(ambient: set<string>, st: State, fuel: nat)
    ensures st.log <= EventLoop(ambient, st, fuel).log
    decreases fuel
  {
    if fuel > 0 && st.world != [] {
      ConsultGrows(ambient, st, fuel - 1);
      EventLoopGrows(ambient, Consult(ambient, st, fuel - 1).st, fuel - 1);
    }
  }

  lemma {:induction false} EventLoopExtends(ambient: set<string>, st: State, fuel: nat)
    ensures EventLoop(ambient, st, fuel).log <= EventLoop(ambient, st, fuel + 1).log
    decreases fuel
  {
    EventLoopGrows(ambient, st, fuel + 1);
    if fuel > 0 && st.world != [] {
      ConsultExtends(ambient, st, fuel - 1);
      EventLoopExtends(ambient, Consult(ambient, st, fuel - 1).st, fuel - 1);
      EventLoopGrows(ambient, Consult(ambient, st, fuel).st, fuel);
    }
  }

  lemma {:induction false} RunExtends(file: Node, ambient: set<string>, world: seq<WorldStep>, fuel: nat)
    ensures Run(file, ambient, world, fuel) <= Run(file, ambient, world, fuel + 1)
  {
    var vars := VarNamesAll(file.kids);
    var env, begin := Extend(map[], vars, 0), Bind(Start(world), vars, Holds(Undefined));
    EvalBlockExtends(file.kids, env, ambient, begin, fuel);
    EventLoopExtends(ambient, EvalBlock(file.kids, env, ambient, begin, fuel).st, fuel);
    EventLoopGrows(ambient, EvalBlock(file.kids, env, ambient, begin, fuel + 1).st, fuel + 1);
  }

  /** More fuel only lengthens the log of a run: what it was seen to do, it still does. */
  lemma {:induction false} MoreFuelOnlyExtends(file: Node, ambient: set<string>, world: seq<WorldStep>, less: nat,
      more: nat)
    requires less <= more
    ensures Run(file, ambient, world, less) <= Run(file, ambient, world, more)
    decreases more
  {
    if less < more {
      MoreFuelOnlyExtends(file, ambient, world, less, more - 1);
      RunExtends(file, ambient, world, more - 1);
    }
  }
}
