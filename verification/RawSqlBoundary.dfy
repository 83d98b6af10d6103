/**
  The edge of the fragment: two files that the raw-SQL checker passes and that hand a
  sink whatever text the outside world likes.
 */
module RawSqlBoundary {
  import opened Wrappers
  import opened RawSqlSyntax
  import opened RawSqlChecker
  import opened RawSqlSemantics
  import opened RawSqlSoundness

  // ----- what the checker reports on the two files -----

  lemma {:induction false} ParentPreorder(n: Node, kid: Node)
    requires n.kids == [kid]
    ensures Preorder(n) == [n] + Preorder(kid)
  {
    assert n.kids[1..] == [];
    assert Preorder(kid) + PreorderAll([]) == Preorder(kid);
  }

  lemma {:induction false} PairPreorder(a: Node, b: Node)
    ensures PreorderAll([a, b]) == Preorder(a) + Preorder(b)
  {
    assert [a, b][1..] == [b] && [b][1..] == [];
    assert Preorder(b) + PreorderAll([]) == Preorder(b);
  }

  lemma {:induction false} ConsPreorder(a: Node, rest: seq<Node>)
    ensures PreorderAll([a] + rest) == Preorder(a) + PreorderAll(rest)
  {
    assert ([a] + rest)[1..] == rest;
  }

  /** A file whose only call is accepted is passed. */
  lemma {:induction false} OneSafeCallIsPassed(root: Node, call: Node, kind: SinkKind, lines: seq<string>)
    requires forall n :: n in Preorder(root) && n.kind.Call? ==> n == call
    requires |call.kids| > 1 && SinkOf(call, SequelizeSinks(root)) == Some(kind) && ArgIsSafe(kind, call.kids[1], root)
    ensures Violations(Preorder(root), root, lines) == []
  {
    EmptyReportIff(Preorder(root), root, lines);
  }

  // ----- how the two files run -----

  lemma {:induction false} WorldAnswers(ambient: set<string>, st: State, v: Value, fuel: nat)
    requires st.world != [] && st.world[0] == Give(v) && fuel > 0
    ensures Consult(ambient, st, fuel) == Result(Normal(v), st.(world := st.world[1..]))
  {}

  lemma {:induction false} AmbientRead(n: Node, name: string, env: Env, ambient: set<string>, st: State, v: Value,
      fuel: nat)
    requires n == Node(Identifier(name), []) && name !in env && name in ambient
    requires st.world != [] && st.world[0] == Give(v) && fuel > 2
    ensures Eval(n, env, ambient, st, fuel) == Result(Normal(v), st.(world := st.world[1..]))
  {
    WorldAnswers(ambient, st, v, fuel - 2);
    assert Read(name, env, ambient, st, fuel - 1) == Consult(ambient, st, fuel - 2);
  }

  lemma {:induction false} OneEvaluated(n: Node, env: Env, ambient: set<string>, st: State, fuel: nat)
    requires fuel > 1 && Eval(n, env, ambient, st, fuel - 1).outcome.Normal?
    ensures var r := Eval(n, env, ambient, st, fuel - 1);
            EvalAll([n], env, ambient, st, fuel) == ListResult(Values([r.outcome.value]), r.st)
  {
    var r := Eval(n, env, ambient, st, fuel - 1);
    assert [n][1..] == [];
    assert EvalAll([], env, ambient, r.st, fuel - 1) == ListResult(Values([]), r.st);
    assert [r.outcome.value] + [] == [r.outcome.value];
  }

  /** The world supplies a receiver and its method. */
  lemma {:induction false} MethodIsSupplied(callee: Node, member: string, receiver: string, env: Env,
      ambient: set<string>, st: State, fuel: nat)
    requires callee == Node(PropertyAccess(member), [Node(Identifier(receiver), [])]) && receiver !in env
             && receiver in ambient
    requires |st.world| > 1 && st.world[0] == Give(Opaque(0)) && st.world[1] == Give(Opaque(1)) && fuel > 5
    ensures Eval(callee, env, ambient, st, fuel) == Result(Normal(Opaque(1)), st.(world := st.world[2..]))
  {
    var after := st.(world := st.world[1..]);
    AmbientRead(callee.kids[0], receiver, env, ambient, st, Opaque(0), fuel - 2);
    OneEvaluated(callee.kids[0], env, ambient, st, fuel - 1);
    WorldAnswers(ambient, after, Opaque(1), fuel - 1);
    assert EvalMember(callee, member, env, ambient, st, fuel) == Consult(ambient, after, fuel - 1);
    assert st.world[1..][1..] == st.world[2..];
  }

  /** Such a call is logged with its argument, and the silent world lets it return. */
  lemma {:induction false} CallIsLogged(call: Node, member: string, receiver: string, env: Env, ambient: set<string>,
      st: State, fuel: nat)
    requires call.kind.Call? && |call.kids| == 2
    requires call.kids[0] == Node(PropertyAccess(member), [Node(Identifier(receiver), [])])
    requires receiver !in env && receiver in ambient && fuel > 9
    requires |st.world| > 1 && st.world[0] == Give(Opaque(0)) && st.world[1] == Give(Opaque(1))
    ensures var r := Eval(call.kids[1], env, ambient, st.(world := st.world[2..]), fuel - 3);
            r.outcome.Normal? && r.st.world == [] ==>
              Eval(call, env, ambient, st, fuel)
              == Result(Normal(Undefined), r.st.(log := r.st.log + [CallEvent(call, [r.outcome.value])]))
  {
    var callee, arg := call.kids[0], call.kids[1];
    var after := st.(world := st.world[2..]);
    var r := Eval(arg, env, ambient, after, fuel - 3);
    if r.outcome.Normal? && r.st.world == [] {
      MethodIsSupplied(callee, member, receiver, env, ambient, st, fuel - 2);
      OneEvaluated(arg, env, ambient, after, fuel - 2);
      assert call.kids == [callee] + [arg];
      LoggedCallReturns(call, ambient, Opaque(1), r.outcome.value, r.st, fuel - 1);
      assert EvalCall(call, env, ambient, st, fuel)
          == AfterArguments(call, ambient, ListResult(Values([Opaque(1)] + [r.outcome.value]), r.st), fuel - 1);
    }
  }

  lemma {:induction false} LoggedCallReturns(call: Node, ambient: set<string>, callee: Value, argument: Value,
      st: State, fuel: nat)
    requires callee.Opaque? && st.world == [] && fuel > 0
    ensures AfterArguments(call, ambient, ListResult(Values([callee] + [argument]), st), fuel)
         == Result(Normal(Undefined), st.(log := st.log + [CallEvent(call, [argument])]))
  {
    assert ([callee] + [argument])[1..] == [argument];
    assert Consult(ambient, st.(log := st.log + [CallEvent(call, [argument])]), fuel)
        == Result(Normal(Undefined), st.(log := st.log + [CallEvent(call, [argument])]));
  }

  /** A file without top-level declarations starts in an empty environment. */
  lemma {:induction false} FileRuns(file: Node, ambient: set<string>, world: seq<WorldStep>, fuel: nat)
    requires VarNamesAll(file.kids) == {} && LexicalNames(file.kids) == {} && fuel > 0
    ensures var r := EvalAll(file.kids, map[], ambient, Start(world).(nextScope := 2), fuel - 1);
            r.outcome.Values? && r.st.world == [] ==> Run(file, ambient, world, fuel) == r.st.log
  {
    var none: set<string> := {};
    assert Extend(map[], none, 0) == map[] && Extend(map[], none, 1) == map[];
    var begin := Bind(Start(world), none, Holds(Undefined));
    assert begin == Start(world).(nextScope := 1);
    assert Bind(begin, none, Uninitialised) == Start(world).(nextScope := 2);
  }

  // ----- an import that shares the name of a local constant -----

  ghost predicate ImportsAndShadows(file: Node, imported: Node, local: Node, call: Node, name: string,
      receiver: string) {
    && file == Node(SourceFile, [imported] + ([local] + [call]))
    && imported.kind.Import? && imported.kids == []
    && local.kind == FunctionExpr && |local.kids| == 1
    && local.kids[0].kind == VarDecl(LetOrConst, name) && |local.kids[0].kids| == 1
    && local.kids[0].kids[0].kind.StringLit? && local.kids[0].kids[0].kids == []
    && call.kind.Call?
    && call.kids == [Node(PropertyAccess("literal"), [Node(Identifier(receiver), [])])] + [Node(Identifier(name), [])]
  }

  lemma {:induction false} ShadowedFileNodes(file: Node, imported: Node, local: Node, call: Node, name: string,
      receiver: string)
    requires ImportsAndShadows(file, imported, local, call, name, receiver)
    ensures var decl, text := local.kids[0], local.kids[0].kids[0];
            Preorder(file) == [file, imported, local, decl, text, call, call.kids[0], call.kids[0].kids[0],
                call.kids[1]]
  {
    var decl, text := local.kids[0], local.kids[0].kids[0];
    ParentPreorder(decl, text);
    ParentPreorder(local, decl);
    ParentPreorder(call.kids[0], call.kids[0].kids[0]);
    PairPreorder(call.kids[0], call.kids[1]);
    assert call.kids == [call.kids[0], call.kids[1]];
    PairPreorder(local, call);
    assert [local] + [call] == [local, call];
    ConsPreorder(imported, [local] + [call]);
  }

  /** The node neither declares nor rebinds the name. */
  predicate Neutral(n: Node, name: string) {
    !Declares(n, name) && !Rebinds(n, name)
  }

  lemma {:induction false} OnlyDeclarationResolves(root: Node, name: string, before: seq<Node>, decl: Node,
      after: seq<Node>)
    requires Preorder(root) == before + ([decl] + after)
    requires Declares(decl, name) && decl.kids != []
    requires forall i :: 0 <= i < |before| ==> Neutral(before[i], name)
    requires forall i :: 0 <= i < |after| ==> Neutral(after[i], name)
    ensures ResolveInit(name, root) == Some(decl.kids[0])
  {
    NoDeclarations(name, before);
    NoDeclarations(name, after);
    DeclarationsAppend(name, before, [decl] + after);
    assert ([decl] + after)[1..] == after;
    assert Declarations(name, Preorder(root)) == [decl];
    ReboundIff(name, Preorder(root));
  }

  /** The checker resolves the call's argument to the constant that is not in scope there. */
  lemma {:induction false} ShadowedNameResolves(file: Node, imported: Node, local: Node, call: Node, name: string,
      receiver: string)
    requires ImportsAndShadows(file, imported, local, call, name, receiver)
    ensures ResolveInit(name, file) == Some(local.kids[0].kids[0])
  {
    var decl, callee := local.kids[0], call.kids[0];
    ShadowedFileNodes(file, imported, local, call, name, receiver);
    assert Neutral(file, name) && Neutral(local, name) && Neutral(call, name) && Neutral(callee, name);
    OnlyDeclarationResolves(file, name, [file, imported, local], decl,
        [decl.kids[0], call, callee, callee.kids[0], call.kids[1]]);
  }

  lemma {:induction false} ShadowedFileIsPassed(file: Node, imported: Node, local: Node, call: Node, name: string,
      receiver: string, lines: seq<string>)
    requires ImportsAndShadows(file, imported, local, call, name, receiver)
    ensures Violations(Preorder(file), file, lines) == []
  {
    ShadowedNameResolves(file, imported, local, call, name, receiver);
    OnlyCallOfShadowedFile(file, imported, local, call, name, receiver);
    OneSafeCallIsPassed(file, call, LiteralSink, lines);
  }

  lemma {:induction false} OnlyCallOfShadowedFile(file: Node, imported: Node, local: Node, call: Node, name: string,
      receiver: string)
    requires ImportsAndShadows(file, imported, local, call, name, receiver)
    ensures forall n :: n in Preorder(file) && n.kind.Call? ==> n == call
  {
    ShadowedFileNodes(file, imported, local, call, name, receiver);
  }

  lemma {:induction false} NoDeclarations(name: string, ns: seq<Node>)
    requires forall i :: 0 <= i < |ns| ==> !Declares(ns[i], name)
    ensures Declarations(name, ns) == []
  {
    if ns != [] {
      NoDeclarations(name, ns[1..]);
    }
  }

  lemma {:induction false} NoVarNames(n: Node)
    requires forall d :: d in Preorder(n) ==> !d.kind.VarDecl?
    ensures VarNames(n) == {}
    decreases n, 1
  {
    assert n in Preorder(n);
    NoVarNamesInAny(n.kids);
  }

  lemma {:induction false} NoVarNamesInAny(ns: seq<Node>)
    requires forall d :: d in PreorderAll(ns) ==> !d.kind.VarDecl?
    ensures VarNamesAll(ns) == {}
    decreases ns, 0
  {
    if ns != [] {
      NoVarNames(ns[0]);
      NoVarNamesInAny(ns[1..]);
    }
  }

  lemma {:induction false} ShadowedFileDeclaresNothing(file: Node, imported: Node, local: Node, call: Node,
      name: string, receiver: string)
    requires ImportsAndShadows(file, imported, local, call, name, receiver)
    ensures VarNamesAll(file.kids) == {} && LexicalNames(file.kids) == {}
  {
    ShadowedFileNodes(file, imported, local, call, name, receiver);
    PairPreorder(call.kids[0], call.kids[1]);
    ParentPreorder(call.kids[0], call.kids[0].kids[0]);
    assert call.kids == [call.kids[0], call.kids[1]];
    NoVarNames(call);
    assert file.kids[1..] == [local] + [call] && ([local] + [call])[1..] == [call] && [call][1..] == [];
    assert VarNames(imported) == {} && VarNames(local) == {} && VarNames(call) == {};
    assert VarNamesAll([call]) == {} && VarNamesAll([local] + [call]) == {};
  }

  /**
    `import { sql } from './queries'; () => { const sql = 'a'; }; db.literal(sql);`
    passes the checker, and the call receives whatever the import holds.
   */
  lemma {:induction false} ImportIsNotCovered(file: Node, imported: Node, local: Node, call: Node, name: string,
      receiver: string, lines: seq<string>, ambient: set<string>, text: string, fuel: nat)
    requires ImportsAndShadows(file, imported, local, call, name, receiver)
    requires name in ambient && receiver in ambient && fuel > 16
    ensures Violations(Preorder(file), file, lines) == []
    ensures Run(file, ambient, [Give(Undefined), Give(Opaque(0)), Give(Opaque(1)), Give(Str(text))], fuel)
         == [CallEvent(call, [Str(text)])]
  {
    ShadowedFileIsPassed(file, imported, local, call, name, receiver, lines);
    ShadowedFileDeclaresNothing(file, imported, local, call, name, receiver);
    var world := [Give(Undefined), Give(Opaque(0)), Give(Opaque(1)), Give(Str(text))];
    FileRuns(file, ambient, world, fuel);
    var begin := Start(world).(nextScope := 2);
    var loaded := begin.(world := world[1..], nextScope := 3);
    assert world[1..] == [Give(Opaque(0)), Give(Opaque(1)), Give(Str(text))];
    ImportAsksTheWorld(imported, ambient, begin, fuel - 2);
    LocalThenCall(local, call, name, receiver, ambient, loaded, text, fuel - 2);
  }

  lemma {:induction false} LocalThenCall(local: Node, call: Node, name: string, receiver: string, ambient: set<string>,
      st: State, text: string, fuel: nat)
    requires local.kind.FunctionExpr? && name in ambient && receiver in ambient && fuel > 14
    requires call.kind.Call?
    requires call.kids == [Node(PropertyAccess("literal"), [Node(Identifier(receiver), [])])]
             + [Node(Identifier(name), [])]
    requires st.world == [Give(Opaque(0)), Give(Opaque(1)), Give(Str(text))] && st.log == []
    ensures var r := EvalAll([local] + [call], map[], ambient, st, fuel);
            r.outcome.Values? && r.st.world == [] && r.st.log == [CallEvent(call, [Str(text)])]
  {
    var closed := st.(closures := st.closures + [Closure(local, map[])]);
    assert Eval(local, map[], ambient, st, fuel - 1) == Result(Normal(FunctionValue(|st.closures|)), closed);
    assert st.world[2..] == [Give(Str(text))] && [Give(Str(text))][1..] == [];
    AmbientRead(call.kids[1], name, map[], ambient, closed.(world := st.world[2..]), Str(text), fuel - 5);
    CallIsLogged(call, "literal", receiver, map[], ambient, closed, fuel - 2);
    OneEvaluated(call, map[], ambient, closed, fuel - 1);
    assert [] + [CallEvent(call, [Str(text)])] == [CallEvent(call, [Str(text)])];
  }

  lemma {:induction false} ImportAsksTheWorld(n: Node, ambient: set<string>, st: State, fuel: nat)
    requires (n.kind.Import? || n.kind.Other?) && n.kids == [] && st.world != [] && st.world[0].Give? && fuel > 2
    ensures Eval(n, map[], ambient, st, fuel)
         == Result(Normal(st.world[0].value), st.(world := st.world[1..], nextScope := st.nextScope + 1))
  {
    var none: set<string> := {};
    assert LexicalNames([]) == none && Extend(map[], none, st.nextScope) == map[];
    assert Bind(st, none, Uninitialised) == st.(nextScope := st.nextScope + 1);
    assert Steer([], map[], ambient, st.(nextScope := st.nextScope + 1), fuel - 2)
        == Result(Normal(st.world[0].value), st.(world := st.world[1..], nextScope := st.nextScope + 1));
  }

  /**
    The same holds of every such use that is evaluated where the name is not in scope,
    at whatever point of whatever run: the world can hand it any text.
   */
  lemma {:induction false} UseOutOfScopeTakesAnyText(call: Node, member: string, receiver: string, name: string,
      env: Env, ambient: set<string>, st: State, text: string, fuel: nat)
    requires call.kind.Call? && fuel > 9
    requires call.kids == [Node(PropertyAccess(member), [Node(Identifier(receiver), [])])]
             + [Node(Identifier(name), [])]
    requires name in ambient && name !in env && receiver in ambient && receiver !in env
    ensures var r := Eval(call, env, ambient, st.(world := [Give(Opaque(0)), Give(Opaque(1)), Give(Str(text))]), fuel);
            r.outcome.Normal? && r.st.log == st.log + [CallEvent(call, [Str(text)])]
  {
    var begin := st.(world := [Give(Opaque(0)), Give(Opaque(1)), Give(Str(text))]);
    assert begin.world[2..] == [Give(Str(text))] && [Give(Str(text))][1..] == [];
    AmbientRead(call.kids[1], name, env, ambient, begin.(world := begin.world[2..]), Str(text), fuel - 3);
    CallIsLogged(call, member, receiver, env, ambient, begin, fuel);
  }

  // ----- a property after `text` -----

  /** A spread of something the file does not define, or a computed key, an accessor or a method. */
  predicate Overwrites(p: Node, options: string) {
    p == Node(Spread, [Node(Identifier(options), [])]) || p == Node(Other, [])
  }

  ghost predicate QueriesWithObject(file: Node, call: Node, text: Node, later: Node, receiver: string,
      options: string) {
    && file == Node(SourceFile, [call])
    && text.kind == PropertyAssignment("text") && |text.kids| == 1
    && text.kids[0].kind.StringLit? && text.kids[0].kids == []
    && Overwrites(later, options)
    && call.kind.Call?
    && call.kids == [Node(PropertyAccess("query"), [Node(Identifier(receiver), [])])]
        + [Node(ObjectLit, [text] + [later])]
  }

  /** The tree holds no declaration and no call but, perhaps, the given one. */
  predicate PlainBut(ns: seq<Node>, call: Node) {
    forall n :: n in ns ==> !n.kind.VarDecl? && (n.kind.Call? ==> n == call)
  }

  lemma {:induction false} PlainPair(n: Node, a: Node, b: Node, call: Node)
    requires n.kids == [a] + [b] && PlainBut(Preorder(a), call) && PlainBut(Preorder(b), call)
    requires !n.kind.VarDecl? && (n.kind.Call? ==> n == call)
    ensures PlainBut(Preorder(n), call)
  {
    assert [a] + [b] == [a, b];
    PairPreorder(a, b);
  }

  /** A node over at most one leaf. */
  lemma {:induction false} PlainStalk(n: Node, call: Node)
    requires n.kids == [] || |n.kids| == 1
    requires n.kids != [] ==> n.kids[0].kids == [] && !n.kids[0].kind.VarDecl? && !n.kids[0].kind.Call?
    requires !n.kind.VarDecl? && !n.kind.Call?
    ensures PlainBut(Preorder(n), call)
  {
    if n.kids != [] {
      assert n.kids == [n.kids[0]];
      ParentPreorder(n, n.kids[0]);
    }
  }

  lemma {:induction false} ObjectFileNodes(file: Node, call: Node, text: Node, later: Node, receiver: string,
      options: string)
    requires QueriesWithObject(file, call, text, later, receiver, options)
    ensures forall n :: n in Preorder(file) && n.kind.Call? ==> n == call
    ensures forall n :: n in Preorder(call) ==> !n.kind.VarDecl?
  {
    PlainStalk(text, call);
    PlainStalk(later, call);
    PlainPair(call.kids[1], text, later, call);
    PlainStalk(call.kids[0], call);
    PlainPair(call, call.kids[0], call.kids[1], call);
    ParentPreorder(file, call);
  }

  lemma {:induction false} ObjectFileIsPassed(file: Node, call: Node, text: Node, later: Node, receiver: string,
      options: string, lines: seq<string>)
    requires QueriesWithObject(file, call, text, later, receiver, options)
    ensures Violations(Preorder(file), file, lines) == []
  {
    ObjectFileNodes(file, call, text, later, receiver, options);
    assert IsTextProperty(text) && TextPropertyValue([text] + [later]) == Some(text.kids[0]);
    assert QueryArgIsSafe(call.kids[1], file);
    OneSafeCallIsPassed(file, call, QuerySink, lines);
  }

  lemma {:induction false} WorldFillsProperty(later: Node, options: string, ambient: set<string>, st: State, v: Value,
      fuel: nat)
    requires Overwrites(later, options) && options in ambient && st.world == [Give(v)] && fuel > 2
    ensures var r := Eval(TargetOf(later), map[], ambient, st, fuel);
            r.outcome == Normal(v) && r.st.world == [] && r.st.log == st.log
  {
    if later.kind.Spread? {
      AmbientRead(later.kids[0], options, map[], ambient, st, v, fuel);
    } else {
      ImportAsksTheWorld(later, ambient, st, fuel);
    }
  }

  lemma {:induction false} ObjectTakesLaterText(text: Node, later: Node, options: string, ambient: set<string>,
      st: State, other: string, fuel: nat)
    requires text.kind == PropertyAssignment("text") && |text.kids| == 1 && text.kids[0].kind.StringLit?
    requires Overwrites(later, options) && options in ambient && fuel > 6
    requires st.world == [Give(Record([Field("text", Str(other))]))]
    ensures var r := Eval(Node(ObjectLit, [text] + [later]), map[], ambient, st, fuel);
            && r.outcome.Normal? && r.outcome.value.Record?
            && Lookup(r.outcome.value.fields, "text") == Some(Str(other))
            && r.st.world == [] && r.st.log == st.log
  {
    var first := [Field("text", Str(text.kids[0].kind.text))];
    var second := Record([Field("text", Str(other))]);
    WorldFillsProperty(later, options, ambient, st, second, fuel - 3);
    var r := Eval(TargetOf(later), map[], ambient, st, fuel - 3);
    LookupStep(first, Field("text", Str(other)), "text");
    assert FieldsOf(later, second) == [Field("text", Str(other))];
    assert [later][1..] == [] && ([text] + [later])[1..] == [later] && [] + first == first;
    assert EvalObject([later], first, map[], ambient, st, fuel - 2)
           == Result(Normal(Record(first + FieldsOf(later, second))), r.st);
    assert Eval(text.kids[0], map[], ambient, st, fuel - 2) == Result(Normal(Str(text.kids[0].kind.text)), st);
    assert EvalObject([text] + [later], [], map[], ambient, st, fuel - 1)
        == EvalObject([later], first, map[], ambient, st, fuel - 2);
  }

  /**
    `db.query({ text: 'a', ...options })` passes the checker, and so does a computed key,
    an accessor or a method in place of the spread; the call receives the later text.
   */
  lemma {:induction false} LaterPropertyIsNotCovered(file: Node, call: Node, text: Node, later: Node, receiver: string,
      options: string, lines: seq<string>, ambient: set<string>, other: string, fuel: nat)
    requires QueriesWithObject(file, call, text, later, receiver, options)
    requires receiver in ambient && options in ambient && fuel > 16
    ensures Violations(Preorder(file), file, lines) == []
    ensures var options := Record([Field("text", Str(other))]);
            var log := Run(file, ambient, [Give(Opaque(0)), Give(Opaque(1)), Give(options)], fuel);
            && |log| == 1 && log[0].call == call && |log[0].arguments| == 1
            && SqlReceived(QuerySink, call.kids[1], log[0].arguments[0]) == Str(other)
  {
    ObjectFileIsPassed(file, call, text, later, receiver, options, lines);
    ObjectFileNodes(file, call, text, later, receiver, options);
    NoVarNames(call);
    assert file.kids[1..] == [] && VarNamesAll(file.kids) == {};
    var world := [Give(Opaque(0)), Give(Opaque(1)), Give(Record([Field("text", Str(other))]))];
    FileRuns(file, ambient, world, fuel);
    var begin := Start(world).(nextScope := 2);
    assert world[2..] == [Give(Record([Field("text", Str(other))]))];
    ObjectTakesLaterText(text, later, options, ambient, begin.(world := world[2..]), other, fuel - 5);
    CallIsLogged(call, "query", receiver, map[], ambient, begin, fuel - 2);
    OneEvaluated(call, map[], ambient, begin, fuel - 1);
  }
}
