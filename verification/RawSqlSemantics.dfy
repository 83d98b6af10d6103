/**
  A semantics for the programs the raw-SQL checker reads: lexical scopes with
  hoisting and temporal dead zones, closures over mutable cells, early returns,
  exceptions, and an outside world that answers every operation the program
  does not define, by a value or by throwing, and calls the program's functions back
  whenever it likes. Of syntax that the rule never looks into, such as loops,
  `switch`, `try` and `&&`, the world also decides which operands run, in which order
  and how often, what they throw that is caught, and how the whole completes.

  Every function call is logged with the values of its arguments, so what a raw-SQL
  sink receives can be read off the log. `fuel` bounds the depth of evaluation: a run
  that exhausts it stops there, and more of it only makes the log longer.
 */
module RawSqlSemantics {
  import opened Wrappers
  import opened RawSqlSyntax

  datatype Value =
    | Undefined
    | Literal(primitive: Primitive)
    | Str(text: string)
    | Record(fields: seq<Field>)
    | FunctionValue(index: nat)
    | Opaque(id: nat)

  datatype Field = Field(key: string, value: Value)

  /** A binding of a name made by the scope instance numbered `scope`. */
  datatype Location = Location(name: string, scope: nat)

  /** A `let` or `const` binding is uninitialised until its declaration has run. */
  datatype Cell = Uninitialised | Holds(value: Value)

  /** The innermost scope instance that binds each name. */
  type Env = map<string, nat>

  datatype Closure = Closure(code: Node, env: Env)

  datatype WorldStep =
    | Give(value: Value)
    | Fail
    | CallBack(index: nat, arguments: seq<Value>)
    | Operand(index: nat, absorbed: bool)    // runs an operand, and absorbs its abrupt completion or passes it on
    | LeaveBy(completion: Completion)        // completes by `return`, or by `break` or `continue`

  datatype Completion = ByReturn(value: Value) | ByJump

  datatype CallEvent = CallEvent(call: Node, arguments: seq<Value>)

  datatype State = State(
    cells: map<Location, Cell>,
    nextScope: nat,
    closures: seq<Closure>,
    world: seq<WorldStep>,
    log: seq<CallEvent>)

  datatype Outcome = Normal(value: Value) | Returned(value: Value) | Jumped | Thrown | OutOfFuel

  datatype Result = Result(outcome: Outcome, st: State)

  /** Either the values of all nodes of a list, or the outcome that cut it short. */
  datatype ListOutcome = Values(values: seq<Value>) | Abrupt(outcome: Outcome)

  datatype ListResult = ListResult(outcome: ListOutcome, st: State)

  // ----- scopes -----

  /** The `var` names that belong to the function a node occurs in. */
  function VarNames(n: Node): set<string>
    decreases n, 1
  {
    if n.kind.FunctionExpr? then {}
    else (if n.kind.VarDecl? && n.kind.how.Var? then {n.kind.name} else {}) + VarNamesAll(n.kids)
  }

  function VarNamesAll(ns: seq<Node>): set<string>
    decreases ns, 0
  {
    if ns == [] then {} else VarNames(ns[0]) + VarNamesAll(ns[1..])
  }

  function LexicalNames(statements: seq<Node>): set<string> {
    set n | n in statements && n.kind.VarDecl? && n.kind.how.LetOrConst? :: n.kind.name
  }

  function Bind(st: State, names: set<string>, cell: Cell): State {
    st.(cells := st.cells + map name | name in names :: Location(name, st.nextScope) := cell,
        nextScope := st.nextScope + 1)
  }

  function Extend(env: Env, names: set<string>, scope: nat): Env {
    env + map name | name in names :: scope
  }

  function Assign(st: State, env: Env, name: string, v: Value): State {
    if name in env then st.(cells := st.cells[Location(name, env[name]) := Holds(v)]) else st
  }

  function ParameterNames(kids: seq<Node>): seq<string> {
    if kids == [] || !kids[0].kind.Parameter? then [] else [kids[0].kind.name] + ParameterNames(kids[1..])
  }

  function BodyOf(kids: seq<Node>): seq<Node> {
    if kids == [] || !kids[0].kind.Parameter? then kids else BodyOf(kids[1..])
  }

  /** Missing arguments leave their parameters undefined; extra ones are dropped. */
  function BindParameters(st: State, scope: nat, names: seq<string>, arguments: seq<Value>): State
    decreases names
  {
    if names == [] then st else
      var v := if arguments == [] then Undefined else arguments[0];
      BindParameters(st.(cells := st.cells[Location(names[0], scope) := Holds(v)]), scope, names[1..],
                     if arguments == [] then [] else arguments[1..])
  }

  // ----- values -----

  /** A later property overwrites an earlier one of the same key. */
  function Lookup(fields: seq<Field>, key: string): Option<Value> {
    if fields == [] then None else
      var last := fields[|fields| - 1];
      if last.key == key then Some(last.value) else Lookup(fields[..|fields| - 1], key)
  }

  predicate Truthy(v: Value) {
    match v
    case Undefined => false
    case Literal(p) => !(p.FalseLit? || p.NullLit? || (p.NumberLit? && p.n == 0) || (p.BigIntLit? && p.n == 0))
    case Str(text) => text != ""
    case _ => true
  }

  // ----- evaluation -----

  /**
    `ambient` holds the names that the file does not declare but the program may
    still read: imports and globals. The world decides what they hold.
   */
  function Eval(n: Node, env: Env, ambient: set<string>, st: State, fuel: nat): Result
    decreases fuel, 1
  {
    if fuel == 0 then Result(OutOfFuel, st) else
      match n.kind
      case StringLit(text) => Result(Normal(Str(text)), st)
      case PrimitiveLit(p) => Result(Normal(Literal(p)), st)
      case Identifier(name) => Read(name, env, ambient, st, fuel - 1)
      case ShorthandProperty(name) => Read(name, env, ambient, st, fuel - 1)
      case Binary(op) => if op.Plus? then EvalPlus(n, env, ambient, st, fuel) else EvalWrite(n, env, ambient, st, fuel)
      case Unary(_) => EvalWrite(n, env, ambient, st, fuel)
      case PropertyAccess(member) => EvalMember(n, member, env, ambient, st, fuel)
      case Call(_) => EvalCall(n, env, ambient, st, fuel)
      case ObjectLit => EvalObject(n.kids, [], env, ambient, st, fuel - 1)
      case FunctionExpr =>
        Result(Normal(FunctionValue(|st.closures|)), st.(closures := st.closures + [Closure(n, env)]))
      case VarDecl(_, name) => EvalDeclaration(n, name, env, ambient, st, fuel)
      case Return => EvalReturn(n, env, ambient, st, fuel)
      case If => EvalIf(n, env, ambient, st, fuel)
      case Block => EvalBlock(n.kids, env, ambient, st, fuel - 1)
      case _ => EvalOther(n, env, ambient, st, fuel - 1)
  }

  /** Assignments, `++` and `--` to an identifier; other operators only run their operands. */
  function EvalWrite(n: Node, env: Env, ambient: set<string>, st: State, fuel: nat): Result
    requires fuel > 0
    decreases fuel, 0
  {
    if n.kind.Binary? && n.kind.op.Assigning? && |n.kids| == 2 && n.kids[0].kind.Identifier? then
      var r := Eval(n.kids[1], env, ambient, st, fuel - 1);
      if !r.outcome.Normal? then r
      else
        // a compound operator combines the right-hand side with the old value
        var combined := if n.kind.op.how.Plain? then r else Consult(ambient, r.st, fuel - 1);
        Store(n.kids[0].kind.name, env, ambient, combined)
    else if n.kind.Unary? && !n.kind.uop.OtherUnary? && n.kids != [] && n.kids[0].kind.Identifier? then
      Store(n.kids[0].kind.name, env, ambient, Consult(ambient, st, fuel - 1))
    else
      EvalOther(n, env, ambient, st, fuel - 1)
  }

  function EvalPlus(n: Node, env: Env, ambient: set<string>, st: State, fuel: nat): Result
    requires fuel > 0
    decreases fuel, 0
  {
    var r := EvalAll(n.kids, env, ambient, st, fuel - 1);
    if r.outcome.Abrupt? then Result(r.outcome.outcome, r.st)
    else if |r.outcome.values| == 2 && r.outcome.values[0].Str? && r.outcome.values[1].Str? then
      Result(Normal(Str(r.outcome.values[0].text + r.outcome.values[1].text)), r.st)
    else
      Consult(ambient, r.st, fuel - 1)
  }

  function EvalMember(n: Node, member: string, env: Env, ambient: set<string>, st: State, fuel: nat): Result
    requires fuel > 0
    decreases fuel, 0
  {
    var r := EvalAll(n.kids, env, ambient, st, fuel - 1);
    if r.outcome.Abrupt? then Result(r.outcome.outcome, r.st)
    else if && |r.outcome.values| == 1 && r.outcome.values[0].Record?
            && Lookup(r.outcome.values[0].fields, member).Some? then
      Result(Normal(Lookup(r.outcome.values[0].fields, member).value), r.st)
    else
      Consult(ambient, r.st, fuel - 1)
  }

  function EvalCall(n: Node, env: Env, ambient: set<string>, st: State, fuel: nat): Result
    requires fuel > 0
    decreases fuel, 0
  {
    AfterArguments(n, ambient, EvalAll(n.kids, env, ambient, st, fuel - 1), fuel - 1)
  }

  /** What a call does once its callee and arguments have been evaluated: it is logged, then made. */
  function AfterArguments(n: Node, ambient: set<string>, r: ListResult, fuel: nat): Result
    decreases fuel, 2
  {
    if r.outcome.Abrupt? then Result(r.outcome.outcome, r.st)
    else if r.outcome.values == [] then Consult(ambient, r.st, fuel)
    else
      var logged := r.st.(log := r.st.log + [CallEvent(n, r.outcome.values[1..])]);
      if r.outcome.values[0].FunctionValue? then
        Apply(r.outcome.values[0].index, r.outcome.values[1..], ambient, logged, fuel)
      else
        Consult(ambient, logged, fuel)
  }

  /** Without an initializer the world supplies the value: `undefined`, or an element that a loop binds. */
  function EvalDeclaration(n: Node, name: string, env: Env, ambient: set<string>, st: State, fuel: nat): Result
    requires fuel > 0
    decreases fuel, 0
  {
    var r := if n.kids == [] then Consult(ambient, st, fuel - 1) else Eval(n.kids[0], env, ambient, st, fuel - 1);
    if r.outcome.Normal? then Result(Normal(Undefined), Assign(r.st, env, name, r.outcome.value)) else r
  }

  function EvalReturn(n: Node, env: Env, ambient: set<string>, st: State, fuel: nat): Result
    requires fuel > 0
    decreases fuel, 0
  {
    var r := EvalAll(n.kids, env, ambient, st, fuel - 1);
    if r.outcome.Abrupt? then Result(r.outcome.outcome, r.st)
    else Result(Returned(if r.outcome.values == [] then Undefined else r.outcome.values[0]), r.st)
  }

  function EvalIf(n: Node, env: Env, ambient: set<string>, st: State, fuel: nat): Result
    requires fuel > 0
    decreases fuel, 0
  {
    if n.kids == [] then Result(Normal(Undefined), st) else
      var r := Eval(n.kids[0], env, ambient, st, fuel - 1);
      if !r.outcome.Normal? then r
      else if Truthy(r.outcome.value) then
        if |n.kids| > 1 then Eval(n.kids[1], env, ambient, r.st, fuel - 1) else r
      else
        if |n.kids| > 2 then Eval(n.kids[2], env, ambient, r.st, fuel - 1) else r
  }

  /** Syntax the rule never looks into: a scope of its own, in which the world steers. */
  function EvalOther(n: Node, env: Env, ambient: set<string>, st: State, fuel: nat): Result
    decreases fuel, 0
  {
    if fuel == 0 then Result(OutOfFuel, st) else
      var names := LexicalNames(n.kids);
      Steer(n.kids, Extend(env, names, st.nextScope), ambient, Bind(st, names, Uninitialised), fuel - 1)
  }

  /** Follows the world's script until it completes: operands run and functions are called back in between. */
  function Steer(operands: seq<Node>, env: Env, ambient: set<string>, st: State, fuel: nat): Result
    decreases fuel, 0
  {
    if fuel == 0 then Result(OutOfFuel, st)
    else if st.world == [] then Result(Normal(Undefined), st)
    else
      var rest := st.(world := st.world[1..]);
      match st.world[0]
      case Give(v) => Result(Normal(v), rest)
      case Fail => Result(Thrown, rest)
      case LeaveBy(ByReturn(v)) => Result(Returned(v), rest)
      case LeaveBy(ByJump) => Result(Jumped, rest)
      case CallBack(index, arguments) =>
        var r := Apply(index, arguments, ambient, rest, fuel - 1);
        if r.outcome.OutOfFuel? then r else Steer(operands, env, ambient, r.st, fuel - 1)
      case Operand(index, absorbed) =>
        if index >= |operands| then Steer(operands, env, ambient, rest, fuel - 1) else
          var r := Eval(operands[index], env, ambient, rest, fuel - 1);
          if r.outcome.OutOfFuel? || (!r.outcome.Normal? && !absorbed) then r
          else Steer(operands, env, ambient, r.st, fuel - 1)
  }

  function EvalAll(ns: seq<Node>, env: Env, ambient: set<string>, st: State, fuel: nat): ListResult
    decreases fuel, 0
  {
    if ns == [] then ListResult(Values([]), st)
    else if fuel == 0 then ListResult(Abrupt(OutOfFuel), st)
    else
      var first := Eval(ns[0], env, ambient, st, fuel - 1);
      if !first.outcome.Normal? then ListResult(Abrupt(first.outcome), first.st) else
        var rest := EvalAll(ns[1..], env, ambient, first.st, fuel - 1);
        if rest.outcome.Abrupt? then rest
        else ListResult(Values([first.outcome.value] + rest.outcome.values), rest.st)
  }

  function EvalObject(properties: seq<Node>, fields: seq<Field>, env: Env, ambient: set<string>, st: State,
      fuel: nat): Result
    decreases fuel, 0
  {
    if properties == [] then Result(Normal(Record(fields)), st)
    else if fuel == 0 then Result(OutOfFuel, st)
    else
      var p := properties[0];
      var target := if (p.kind.PropertyAssignment? || p.kind.Spread?) && p.kids != [] then p.kids[0] else p;
      var r := Eval(target, env, ambient, st, fuel - 1);
      if !r.outcome.Normal? then r
      else EvalObject(properties[1..], fields + FieldsOf(p, r.outcome.value), env, ambient, r.st, fuel - 1)
  }

  /**
    What one property adds: a named field; for a spread, the fields of its operand; for
    a computed key, an accessor or a method, fields of the world's choice.
   */
  function FieldsOf(p: Node, v: Value): seq<Field> {
    match p.kind
    case PropertyAssignment(key) => [Field(key, v)]
    case ShorthandProperty(name) => [Field(name, v)]
    case _ => if v.Record? then v.fields else []
  }

  /** Runs statements in a fresh block scope. */
  function EvalBlock(statements: seq<Node>, env: Env, ambient: set<string>, st: State, fuel: nat): Result
    decreases fuel, 0
  {
    if fuel == 0 then Result(OutOfFuel, st) else
      var inner := Extend(env, LexicalNames(statements), st.nextScope);
      var r := EvalAll(statements, inner, ambient, Bind(st, LexicalNames(statements), Uninitialised), fuel - 1);
      Result(if r.outcome.Abrupt? then r.outcome.outcome else Normal(Undefined), r.st)
  }

  /** A name with no binding in scope is an import or a global, or the read throws. */
  function Read(name: string, env: Env, ambient: set<string>, st: State, fuel: nat): Result
    decreases fuel, 0
  {
    if fuel == 0 then Result(OutOfFuel, st)
    else if name in env then
      var at := Location(name, env[name]);
      if at in st.cells && st.cells[at].Holds? then Result(Normal(st.cells[at].value), st) else Result(Thrown, st)
    else if name in ambient then Consult(ambient, st, fuel - 1)
    else Result(Thrown, st)
  }

  /** Completes an assignment whose value has been computed. */
  function Store(name: string, env: Env, ambient: set<string>, computed: Result): Result {
    if !computed.outcome.Normal? then computed
    else if name in env then Result(computed.outcome, Assign(computed.st, env, name, computed.outcome.value))
    else Result(if name in ambient then computed.outcome else Thrown, computed.st)
  }

  function VariablesOf(closure: Closure): set<string> {
    VarNamesAll(BodyOf(closure.code.kids))
  }

  /** The scope of one activation of a function: its parameters and its `var` names. */
  function ScopeOf(closure: Closure, scope: nat): Env {
    Extend(closure.env, VariablesOf(closure) + (set name | name in ParameterNames(closure.code.kids)), scope)
  }

  function Activated(closure: Closure, arguments: seq<Value>, st: State): State {
    var hoisted := Bind(st, VariablesOf(closure), Holds(Undefined));
    BindParameters(hoisted, st.nextScope, ParameterNames(closure.code.kids), arguments)
  }

  /** Calls a function of the program. A body that falls off its end yields `undefined`. */
  function Apply(index: nat, arguments: seq<Value>, ambient: set<string>, st: State, fuel: nat): Result
    decreases fuel, 0
  {
    if fuel == 0 then Result(OutOfFuel, st)
    else if index >= |st.closures| then Result(Thrown, st)
    else
      var closure := st.closures[index];
      var r := EvalBlock(BodyOf(closure.code.kids), ScopeOf(closure, st.nextScope), ambient,
                         Activated(closure, arguments, st), fuel - 1);
      Result(match r.outcome
             case Returned(v) => Normal(v)
             case Jumped => Thrown      // no jump leaves a function
             case other => other, r.st)
  }

  /**
    Asks the world for a value. Before answering it may call any function the
    program has created, any number of times; what those calls throw is its concern.
   */
  function Consult(ambient: set<string>, st: State, fuel: nat): Result
    decreases fuel, 1
  {
    var r := Steer([], map[], ambient, st, fuel);
    Result(if r.outcome.Returned? || r.outcome.Jumped? then Thrown else r.outcome, r.st)
  }

  /** After the file's own statements, the event loop: the world keeps calling back. */
  function EventLoop(ambient: set<string>, st: State, fuel: nat): State
    decreases fuel
  {
    if fuel == 0 || st.world == [] then st
    else
      var r := Consult(ambient, st, fuel - 1);
      if r.outcome.OutOfFuel? then r.st else EventLoop(ambient, r.st, fuel - 1)
  }

  function Start(world: seq<WorldStep>): State {
    State(map[], 0, [], world, [])
  }

  /** The log of all calls made when the file is loaded and the world then follows its script. */
  function Run(file: Node, ambient: set<string>, world: seq<WorldStep>, fuel: nat): seq<CallEvent> {
    var vars := VarNamesAll(file.kids);
    var env := Extend(map[], vars, 0);
    var loaded := EvalBlock(file.kids, env, ambient, Bind(Start(world), vars, Holds(Undefined)), fuel);
    (if loaded.outcome.OutOfFuel? then loaded.st else EventLoop(ambient, loaded.st, fuel)).log
  }
}
