/**
  `scripts/check-raw-sql.ts`: which raw-SQL arguments are accepted, how an
  identifier is resolved, and which calls of a file are reported.
 */
module RawSqlChecker {
  import opened Wrappers
  import opened Text
  import opened RawSqlSyntax

  // ----- static text -----

  predicate IsStaticConcat(n: Node) {
    match n.kind
    case StringLit(_) => true
    case Binary(Plus) => |n.kids| == 2 && IsStaticConcat(n.kids[0]) && IsStaticConcat(n.kids[1])
    case _ => false
  }

  /** The text that a static concatenation spells. */
  function StaticText(n: Node): string
    requires IsStaticConcat(n)
  {
    match n.kind
    case StringLit(text) => text
    case Binary(_) => StaticText(n.kids[0]) + StaticText(n.kids[1])
  }

  // ----- one-hop resolution of an identifier -----

  predicate Declares(n: Node, name: string) {
    n.kind.VarDecl? && n.kind.name == name
  }

  predicate Targets(n: Node, name: string) {
    n.kids != [] && n.kids[0].kind == Identifier(name)
  }

  /** A parameter that shadows the name, or a write to it. */
  predicate Rebinds(n: Node, name: string) {
    match n.kind
    case Parameter(p) => p == name
    case Binary(Assigning(_)) => Targets(n, name)
    case Unary(op) => !op.OtherUnary? && Targets(n, name)
    case _ => false
  }

  function Declarations(name: string, ns: seq<Node>): seq<Node> {
    if ns == [] then [] else (if Declares(ns[0], name) then [ns[0]] else []) + Declarations(name, ns[1..])
  }

  predicate Rebound(name: string, ns: seq<Node>) {
    ns != [] && (Rebinds(ns[0], name) || Rebound(name, ns[1..]))
  }

  lemma {:induction false} ReboundIff(name: string, ns: seq<Node>)
    ensures Rebound(name, ns) <==> exists n :: n in ns && Rebinds(n, name)
  {
    if ns != [] {
      ReboundIff(name, ns[1..]);
      assert ns[0] in ns;
    }
  }

  function InitializerOf(decl: Node): Option<Node> {
    if decl.kids == [] then None else Some(decl.kids[0])
  }

  function ResolveInit(name: string, root: Node): Option<Node> {
    var ds := Declarations(name, Preorder(root));
    if Rebound(name, Preorder(root)) || |ds| != 1 then None else InitializerOf(ds[0])
  }

  lemma {:induction false} DeclarationsAppend(name: string, ms: seq<Node>, ns: seq<Node>)
    ensures Declarations(name, ms + ns) == Declarations(name, ms) + Declarations(name, ns)
  {
    if ms == [] {
      assert ms + ns == ns;
    } else {
      DeclarationsAppend(name, ms[1..], ns);
      assert (ms + ns)[0] == ms[0] && (ms + ns)[1..] == ms[1..] + ns;
      var own := if Declares(ms[0], name) then [ms[0]] else [];
      assert own + (Declarations(name, ms[1..]) + Declarations(name, ns))
             == (own + Declarations(name, ms[1..])) + Declarations(name, ns);
    }
  }

  lemma {:induction false} ReboundAppend(name: string, ms: seq<Node>, ns: seq<Node>)
    ensures Rebound(name, ms + ns) <==> Rebound(name, ms) || Rebound(name, ns)
  {
    if ms == [] {
      assert ms + ns == ns;
    } else {
      assert (ms + ns)[1..] == ms[1..] + ns;
      ReboundAppend(name, ms[1..], ns);
    }
  }

  lemma {:induction false} ScanStep(name: string, n: Node, i: nat, found: seq<Node>)
    requires i < |n.kids|
    ensures found + Declarations(name, VisitedUpTo(n, i + 1))
         == found + Declarations(name, VisitedUpTo(n, i)) + Declarations(name, Preorder(n.kids[i]))
    ensures Rebound(name, VisitedUpTo(n, i + 1))
            <==> Rebound(name, VisitedUpTo(n, i)) || Rebound(name, Preorder(n.kids[i]))
  {
    VisitedStep(n);
    DeclarationsAppend(name, VisitedUpTo(n, i), Preorder(n.kids[i]));
    ReboundAppend(name, VisitedUpTo(n, i), Preorder(n.kids[i]));
  }

  class BindingScan {
    const name: string
    var declarations: seq<Node>
    var shadowedOrReassigned: bool

    constructor (name: string)
      ensures this.name == name && declarations == [] && !shadowedOrReassigned
    {
      this.name := name;
      declarations, shadowedOrReassigned := [], false;
    }

    method Visit(n: Node)
      modifies this
      ensures declarations == old(declarations) + Declarations(name, Preorder(n))
      ensures shadowedOrReassigned == (old(shadowedOrReassigned) || Rebound(name, Preorder(n)))
      decreases n
    {
      ghost var found, bound := declarations, shadowedOrReassigned;
      if Declares(n, name) {
        declarations := declarations + [n];
      } else if Rebinds(n, name) {
        shadowedOrReassigned := true;
      }
      for i := 0 to |n.kids|
        invariant declarations == found + Declarations(name, VisitedUpTo(n, i))
        invariant shadowedOrReassigned == (bound || Rebound(name, VisitedUpTo(n, i)))
      {
        ScanStep(name, n, i, found);
        Visit(n.kids[i]);
      }
      VisitedStep(n);
    }
  }

  method ResolveIdentifierInit(name: string, root: Node) returns (init: Option<Node>)
    ensures init == ResolveInit(name, root)
  {
    var scan := new BindingScan(name);
    scan.Visit(root);
    if scan.shadowedOrReassigned || |scan.declarations| != 1 {
      return None;
    }
    return InitializerOf(scan.declarations[0]);
  }

  /** The name resolves, in one hop, to static text. */
  predicate ResolvesToStatic(name: string, root: Node) {
    var init := ResolveInit(name, root);
    init.Some? && IsStaticConcat(init.value)
  }

  // ----- safe-lists -----

  predicate IsStaticSql(arg: Node, root: Node) {
    IsStaticConcat(arg) || (arg.kind.Identifier? && ResolvesToStatic(arg.kind.name, root))
  }

  predicate LiteralArgIsSafe(arg: Node, root: Node) {
    arg.kind.PrimitiveLit? || IsStaticSql(arg, root)
  }

  predicate IsTextProperty(p: Node) {
    match p.kind
    case PropertyAssignment(key) => key == "text" && p.kids != []
    case ShorthandProperty(name) => name == "text"
    case _ => false
  }

  function PropertyValue(p: Node): Node
    requires IsTextProperty(p)
  {
    if p.kind.PropertyAssignment? then p.kids[0] else Node(Identifier(p.kind.name), [])
  }

  function TextPropertyValue(properties: seq<Node>): Option<Node> {
    if properties == [] then None
    else if IsTextProperty(properties[0]) then Some(PropertyValue(properties[0]))
    else TextPropertyValue(properties[1..])
  }

  predicate QueryArgIsSafe(arg: Node, root: Node) {
    if arg.kind.ObjectLit? then
      var value := TextPropertyValue(arg.kids);
      value.Some? && IsStaticSql(value.value, root)
    else
      IsStaticSql(arg, root)
  }

  // ----- sinks -----

  datatype SinkKind = LiteralSink | QuerySink

  function SinkNamed(name: string): Option<SinkKind> {
    if name == "literal" then Some(LiteralSink) else if name == "query" then Some(QuerySink) else None
  }

  /** Later specifiers overwrite earlier ones, as `map.set` does. */
  function SpecifierSinks(specifiers: seq<ImportSpecifier>): map<string, SinkKind> {
    if specifiers == [] then map[] else
      var last := specifiers[|specifiers| - 1];
      var before := SpecifierSinks(specifiers[..|specifiers| - 1]);
      var kind := SinkNamed(last.exported);
      if kind.Some? then before[last.local := kind.value] else before
  }

  predicate ImportsSequelize(n: Node) {
    n.kind.Import? && n.kind.source == "sequelize"
  }

  /** The specifiers of the file's top-level `sequelize` imports, in order. */
  function SequelizeSpecifiers(statements: seq<Node>): seq<ImportSpecifier> {
    if statements == [] then [] else
      var last := statements[|statements| - 1];
      SequelizeSpecifiers(statements[..|statements| - 1]) + (if ImportsSequelize(last) then last.kind.named else [])
  }

  function SequelizeSinks(root: Node): map<string, SinkKind> {
    SpecifierSinks(SequelizeSpecifiers(root.kids))
  }

  lemma {:induction false} SpecifierSinksStep(before: seq<ImportSpecifier>, named: seq<ImportSpecifier>, j: nat)
    requires j < |named|
    ensures var sinks, kind := SpecifierSinks(before + named[..j]), SinkNamed(named[j].exported);
            SpecifierSinks(before + named[..j + 1]) == if kind.Some? then sinks[named[j].local := kind.value] else sinks
  {
    var specifiers := before + named[..j];
    assert before + named[..j + 1] == specifiers + [named[j]];
    assert (specifiers + [named[j]])[..|specifiers|] == specifiers;
  }

  lemma {:induction false} SequelizeSpecifiersStep(statements: seq<Node>, i: nat)
    requires i < |statements|
    ensures SequelizeSpecifiers(statements[..i + 1]) ==
            SequelizeSpecifiers(statements[..i])
            + if ImportsSequelize(statements[i]) then statements[i].kind.named else []
  {
    assert statements[..i + 1][..i] == statements[..i];
  }

  method CollectSequelizeSinkNames(root: Node) returns (sinks: map<string, SinkKind>)
    ensures sinks == SequelizeSinks(root)
  {
    sinks := map[];
    for i := 0 to |root.kids|
      invariant sinks == SpecifierSinks(SequelizeSpecifiers(root.kids[..i]))
    {
      ghost var before := SequelizeSpecifiers(root.kids[..i]);
      SequelizeSpecifiersStep(root.kids, i);
      if ImportsSequelize(root.kids[i]) {
        var named := root.kids[i].kind.named;
        assert before + named[..0] == before;
        for j := 0 to |named|
          invariant sinks == SpecifierSinks(before + named[..j])
        {
          var kind := SinkNamed(named[j].exported);
          if kind.Some? {
            sinks := sinks[named[j].local := kind.value];
          }
          SpecifierSinksStep(before, named, j);
        }
        assert named[..|named|] == named;
      } else {
        assert before + [] == before;
      }
    }
    assert root.kids[..|root.kids|] == root.kids;
  }

  /** The last specifier that binds the name to a sink. */
  predicate BindsLast(specifiers: seq<ImportSpecifier>, name: string, i: nat) {
    && i < |specifiers| && specifiers[i].local == name && SinkNamed(specifiers[i].exported).Some?
    && forall j :: i < j < |specifiers| ==> !(specifiers[j].local == name && SinkNamed(specifiers[j].exported).Some?)
  }

  /**
    A bare name is a sink exactly when some specifier binds it to one, and of the kind
    that the last such specifier says.
   */
  lemma {:induction false} SinkNamesAreTheImportedOnes(specifiers: seq<ImportSpecifier>, name: string)
    ensures name in SpecifierSinks(specifiers) <==> exists i: nat :: BindsLast(specifiers, name, i)
    ensures name in SpecifierSinks(specifiers) ==>
              exists i: nat :: BindsLast(specifiers, name, i)
                               && SinkNamed(specifiers[i].exported) == Some(SpecifierSinks(specifiers)[name])
    ensures name in SpecifierSinks(specifiers) <==>
            exists s :: s in specifiers && s.local == name && SinkNamed(s.exported).Some?
  {
    if specifiers != [] {
      var k := |specifiers| - 1;
      var init, last := specifiers[..k], specifiers[k];
      SinkNamesAreTheImportedOnes(init, name);
      assert specifiers == init + [last];
      if last.local == name && SinkNamed(last.exported).Some? {
        assert BindsLast(specifiers, name, k);
      } else {
        forall i: nat ensures BindsLast(specifiers, name, i) <==> BindsLast(init, name, i) {}
      }
    }
  }

  /** How the call is a sink: by the method's name on any receiver, or by an imported bare name. */
  function SinkOf(n: Node, sinks: map<string, SinkKind>): Option<SinkKind> {
    if !n.kind.Call? || n.kids == [] then None else
      match n.kids[0].kind
      case PropertyAccess(member) => SinkNamed(member)
      case Identifier(name) => if name in sinks then Some(sinks[name]) else None
      case _ => None
  }

  predicate ArgIsSafe(kind: SinkKind, arg: Node, root: Node) {
    match kind
    case LiteralSink => LiteralArgIsSafe(arg, root)
    case QuerySink => QueryArgIsSafe(arg, root)
  }

  // ----- suppression comments -----

  const MARKER := "sql-check-safe:"

  /** The reason of a suppression comment that begins where the text does. */
  function CommentReason(t: string): Option<string> {
    if !("//" <= t) then None else
      var u := SkipSpace(t[2..]);
      if MARKER <= u && OneLine(u[|MARKER|..]) then Some(u[|MARKER|..]) else None
  }

  /** The reason captured by the leftmost match of the suppression pattern. */
  function FirstReason(t: string): Option<string> {
    if t == [] then None else
      var here := CommentReason(t);
      if here.Some? then here else FirstReason(t[1..])
  }

  predicate LineSuppresses(t: string) {
    var reason := FirstReason(t);
    reason.Some? && !Blank(reason.value)
  }

  predicate IsSuppressed(lines: seq<string>, lineNo: int) {
    || (0 <= lineNo - 1 < |lines| && LineSuppresses(lines[lineNo - 1]))
    || (0 <= lineNo - 2 < |lines| && LineSuppresses(lines[lineNo - 2]))
  }

  /** A suppression comment: two slashes, white space, the marker, and a reason up to the end of the line. */
  ghost predicate IsComment(t: string, space: string, reason: string) {
    t == "//" + space + MARKER + reason && Blank(space) && OneLine(reason)
  }

  /** From this position on the line is a comment that gives a reason. */
  ghost predicate ReasonAt(t: string, i: nat) {
    i <= |t| && exists space, reason :: IsComment(t[i..], space, reason) && !Blank(reason)
  }

  lemma {:induction false} CommentIsRead(t: string, space: string, reason: string)
    requires IsComment(t, space, reason)
    ensures CommentReason(t) == Some(reason)
  {
    assert t[2..] == space + (MARKER + reason);
    assert MARKER[0] == 's' && (MARKER + reason)[0] == 's';
    SkipSpaceOver(space, MARKER + reason);
  }

  lemma {:induction false} ReadIsComment(t: string) returns (space: string)
    requires CommentReason(t).Some?
    ensures IsComment(t, space, CommentReason(t).value)
  {
    space := SkipSpaceSplits(t[2..]);
    var reason := CommentReason(t).value;
    assert SkipSpace(t[2..]) == MARKER + reason;
    assert t == "//" + (space + (MARKER + reason));
  }

  /** A position gives a reason exactly when the pattern, tried there, captures one that is not blank. */
  lemma {:induction false} ReasonAtIff(t: string, i: nat)
    requires i <= |t|
    ensures ReasonAt(t, i) <==> CommentReason(t[i..]).Some? && !Blank(CommentReason(t[i..]).value)
  {
    if ReasonAt(t, i) {
      var space, reason :| IsComment(t[i..], space, reason) && !Blank(reason);
      CommentIsRead(t[i..], space, reason);
    }
    if CommentReason(t[i..]).Some? {
      var space := ReadIsComment(t[i..]);
    }
  }

  /** After a marker with a blank reason no slash remains, so no second marker can follow. */
  lemma {:induction false} BlankReasonIsLast(t: string, space: string, reason: string, i: nat)
    requires IsComment(t, space, reason) && Blank(reason) && 0 < i <= |t|
    ensures CommentReason(t[i..]).None?
  {
    if i + 1 < |t| {
      NoSlashInMarker(space, reason, i - 1);
      assert t[i..][1] == (space + MARKER + reason)[i - 1];
    }
  }

  lemma {:induction false} NoSlashInMarker(space: string, reason: string, k: nat)
    requires Blank(space) && Blank(reason) && k < |space + MARKER + reason|
    ensures (space + MARKER + reason)[k] != '/'
  {
    if |space| <= k < |space| + |MARKER| {
      assert (space + MARKER + reason)[k] == MARKER[k - |space|];
    }
  }

  lemma {:induction false} ReasonSuppresses(t: string, i: nat)
    requires ReasonAt(t, i)
    ensures LineSuppresses(t)
  {
    ReasonAtIff(t, i);
    var here := CommentReason(t);
    assert t[0..] == t;
    if i > 0 && here.Some? && Blank(here.value) {
      var space := ReadIsComment(t);
      BlankReasonIsLast(t, space, here.value, i);
    } else if here.None? {
      assert t[1..][i - 1..] == t[i..];
      ReasonAtIff(t[1..], i - 1);
      ReasonSuppresses(t[1..], i - 1);
    }
  }

  lemma {:induction false} FirstReasonIsAReason(t: string) returns (i: nat)
    requires LineSuppresses(t)
    ensures ReasonAt(t, i)
  {
    i := 0;
    assert t[0..] == t;
    if CommentReason(t).None? {
      i := FirstReasonIsAReason(t[1..]);
      ReasonAtIff(t[1..], i);
      assert t[1..][i..] == t[i + 1..];
      i := i + 1;
    }
    ReasonAtIff(t, i);
  }

  /**
    A line suppresses if and only if some comment on it gives a reason that is
    not blank: taking only the leftmost match loses nothing.
   */
  lemma {:induction false} LineSuppressesIffReason(t: string)
    ensures LineSuppresses(t) ==> exists i: nat :: ReasonAt(t, i)
    ensures (exists i: nat :: ReasonAt(t, i)) ==> LineSuppresses(t)
  {
    if LineSuppresses(t) {
      var i := FirstReasonIsAReason(t);
    }
    if i: nat :| ReasonAt(t, i) {
      ReasonSuppresses(t, i);
    }
  }

  /** Some position on the line with this index gives a reason. */
  ghost predicate Excuses(lines: seq<string>, i: int) {
    0 <= i < |lines| && exists p: nat :: ReasonAt(lines[i], p)
  }

  /** A call is excused by a reason on its own line or on the line above, counting lines from 1, and by nothing else. */
  lemma {:induction false} SuppressedIff(lines: seq<string>, lineNo: int)
    ensures IsSuppressed(lines, lineNo) <==> Excuses(lines, lineNo - 1) || Excuses(lines, lineNo - 2)
  {
    if 0 <= lineNo - 1 < |lines| { LineSuppressesIffReason(lines[lineNo - 1]); }
    if 0 <= lineNo - 2 < |lines| { LineSuppressesIffReason(lines[lineNo - 2]); }
  }

  // ----- detection -----

  datatype Violation = Violation(line: nat, kind: SinkKind)

  /** The call is a sink whose first argument is unsafe, and no comment excuses it. */
  predicate IsViolation(n: Node, root: Node, lines: seq<string>) {
    var kind := SinkOf(n, SequelizeSinks(root));
    && kind.Some?
    && |n.kids| > 1
    && !ArgIsSafe(kind.value, n.kids[1], root)
    && !IsSuppressed(lines, n.kind.line)
  }

  function Violations(ns: seq<Node>, root: Node, lines: seq<string>): seq<Violation> {
    if ns == [] then [] else
      (if IsViolation(ns[0], root, lines)
       then [Violation(ns[0].kind.line, SinkOf(ns[0], SequelizeSinks(root)).value)] else [])
      + Violations(ns[1..], root, lines)
  }

  lemma {:induction false} ViolationsAppend(ms: seq<Node>, ns: seq<Node>, root: Node, lines: seq<string>)
    ensures Violations(ms + ns, root, lines) == Violations(ms, root, lines) + Violations(ns, root, lines)
  {
    if ms == [] {
      assert ms + ns == ns;
    } else {
      assert (ms + ns)[1..] == ms[1..] + ns;
      ViolationsAppend(ms[1..], ns, root, lines);
    }
  }

  lemma {:induction false} ReportStep(n: Node, i: nat, root: Node, lines: seq<string>, reported: seq<Violation>)
    requires i < |n.kids|
    ensures reported + Violations(VisitedUpTo(n, i + 1), root, lines)
         == reported + Violations(VisitedUpTo(n, i), root, lines) + Violations(Preorder(n.kids[i]), root, lines)
  {
    VisitedStep(n);
    ViolationsAppend(VisitedUpTo(n, i), Preorder(n.kids[i]), root, lines);
  }

  class Detector {
    const root: Node
    const lines: seq<string>
    const sequelizeSinks: map<string, SinkKind>
    var violations: seq<Violation>

    constructor (root: Node, lines: seq<string>, sinks: map<string, SinkKind>)
      ensures this.root == root && this.lines == lines && sequelizeSinks == sinks && violations == []
    {
      this.root, this.lines, sequelizeSinks, violations := root, lines, sinks, [];
    }

    method Record(call: Node, kind: SinkKind)
      requires call.kind.Call?
      modifies this
      ensures violations == old(violations) +
                            if && |call.kids| > 1 && !ArgIsSafe(kind, call.kids[1], root)
                               && !IsSuppressed(lines, call.kind.line)
                            then [Violation(call.kind.line, kind)] else []
    {
      if |call.kids| <= 1 || ArgIsSafe(kind, call.kids[1], root) || IsSuppressed(lines, call.kind.line) {
        return;
      }
      violations := violations + [Violation(call.kind.line, kind)];
    }

    method Visit(n: Node)
      requires sequelizeSinks == SequelizeSinks(root)
      modifies this
      ensures violations == old(violations) + Violations(Preorder(n), root, lines)
      decreases n
    {
      ghost var reported := violations;
      if n.kind.Call? && n.kids != [] {
        var callee := n.kids[0];
        if callee.kind.PropertyAccess? {
          var kind := SinkNamed(callee.kind.member);
          if kind.Some? { Record(n, kind.value); }
        } else if callee.kind.Identifier? {
          if callee.kind.name in sequelizeSinks { Record(n, sequelizeSinks[callee.kind.name]); }
        }
      }
      for i := 0 to |n.kids|
        invariant violations == reported + Violations(VisitedUpTo(n, i), root, lines)
      {
        ReportStep(n, i, root, lines, reported);
        Visit(n.kids[i]);
      }
      VisitedStep(n);
    }
  }

  method DetectSource(root: Node, lines: seq<string>) returns (violations: seq<Violation>)
    ensures violations == Violations(Preorder(root), root, lines)
  {
    var sinks := CollectSequelizeSinkNames(root);
    var detector := new Detector(root, lines, sinks);
    detector.Visit(root);
    violations := detector.violations;
  }

  lemma {:induction false} ViolationsListed(ns: seq<Node>, root: Node, lines: seq<string>)
    ensures forall n :: n in ns && IsViolation(n, root, lines) ==>
              Violation(n.kind.line, SinkOf(n, SequelizeSinks(root)).value) in Violations(ns, root, lines)
    ensures forall v :: v in Violations(ns, root, lines) ==>
              exists n :: n in ns && IsViolation(n, root, lines) && v.line == n.kind.line
  {
    if ns != [] {
      ViolationsListed(ns[1..], root, lines);
      assert ns[0] in ns;
    }
  }

  lemma {:induction false} EmptyReportIff(ns: seq<Node>, root: Node, lines: seq<string>)
    ensures Violations(ns, root, lines) == [] <==> forall n :: n in ns ==> !IsViolation(n, root, lines)
  {
    ViolationsListed(ns, root, lines);
    var vs := Violations(ns, root, lines);
    if vs != [] { assert vs[0] in vs; }
  }

  /** Reports are made in preorder, one for each violating call. */
  lemma {:induction false} ReportsInOrder(ns: seq<Node>, i: nat, root: Node, lines: seq<string>)
    requires i < |ns|
    ensures Violations(ns[..i + 1], root, lines) == Violations(ns[..i], root, lines) +
              if IsViolation(ns[i], root, lines)
              then [Violation(ns[i].kind.line, SinkOf(ns[i], SequelizeSinks(root)).value)] else []
  {
    assert ns[..i + 1] == ns[..i] + [ns[i]] && [ns[i]][1..] == [];
    ViolationsAppend(ns[..i], [ns[i]], root, lines);
  }

  /** How a call is a sink, spelled out: a method called `literal` or `query`, or a bare name that is bound to one. */
  ghost predicate IsSinkCall(n: Node, root: Node, kind: SinkKind) {
    && n.kind.Call? && n.kids != []
    && match n.kids[0].kind
       case PropertyAccess(member) => member == if kind.LiteralSink? then "literal" else "query"
       case Identifier(name) =>
         var specifiers := SequelizeSpecifiers(root.kids);
         exists i: nat :: && BindsLast(specifiers, name, i)
                          && specifiers[i].exported == if kind.LiteralSink? then "literal" else "query"
       case _ => false
  }

  lemma {:induction false} SinkCallIff(n: Node, root: Node, kind: SinkKind)
    ensures SinkOf(n, SequelizeSinks(root)) == Some(kind) <==> IsSinkCall(n, root, kind)
  {
    if n.kind.Call? && n.kids != [] && n.kids[0].kind.Identifier? {
      SinkNamesAreTheImportedOnes(SequelizeSpecifiers(root.kids), n.kids[0].kind.name);
    }
  }

  /**
    A call is reported if and only if it is a sink, has a first argument that is unsafe,
    and neither its own line nor the line above has a position that gives a reason.
   */
  lemma {:induction false} ReportedIff(n: Node, root: Node, lines: seq<string>)
    ensures IsViolation(n, root, lines) <==>
            exists kind :: && IsSinkCall(n, root, kind) && |n.kids| > 1 && !ArgIsSafe(kind, n.kids[1], root)
                           && !Excuses(lines, n.kind.line - 1) && !Excuses(lines, n.kind.line - 2)
  {
    forall kind ensures SinkOf(n, SequelizeSinks(root)) == Some(kind) <==> IsSinkCall(n, root, kind) {
      SinkCallIff(n, root, kind);
    }
    if n.kind.Call? {
      SuppressedIff(lines, n.kind.line);
    }
  }

  predicate SameLine(lines: seq<string>, others: seq<string>, i: int) {
    if 0 <= i < |lines| then i < |others| && others[i] == lines[i] else !(0 <= i < |others|)
  }

  /** No other line has a say: texts that agree on these two lines give the call one verdict. */
  lemma {:induction false} OtherLinesHaveNoSay(n: Node, root: Node, lines: seq<string>, others: seq<string>)
    requires n.kind.Call? && SameLine(lines, others, n.kind.line - 1) && SameLine(lines, others, n.kind.line - 2)
    ensures IsViolation(n, root, lines) <==> IsViolation(n, root, others)
  {
    ReportedIff(n, root, lines);
    ReportedIff(n, root, others);
  }

  /** A clean report means that every sink call with an argument is accepted or excused. */
  lemma {:induction false} CleanReportIff(root: Node, lines: seq<string>)
    ensures Violations(Preorder(root), root, lines) == [] <==>
            forall n, kind :: n in Preorder(root) && IsSinkCall(n, root, kind) && |n.kids| > 1 ==>
              || ArgIsSafe(kind, n.kids[1], root)
              || Excuses(lines, n.kind.line - 1) || Excuses(lines, n.kind.line - 2)
  {
    EmptyReportIff(Preorder(root), root, lines);
    forall n | n in Preorder(root)
      ensures IsViolation(n, root, lines) <==>
              exists kind :: && IsSinkCall(n, root, kind) && |n.kids| > 1 && !ArgIsSafe(kind, n.kids[1], root)
                             && !Excuses(lines, n.kind.line - 1) && !Excuses(lines, n.kind.line - 2)
    {
      ReportedIff(n, root, lines);
    }
  }

  // ----- what is accepted -----

  /** Every node of the tree is a string or a `+` of two operands. */
  ghost predicate IsChainOfStrings(n: Node) {
    forall m :: m in Preorder(n) ==> m.kind.StringLit? || (m.kind == Binary(Plus) && |m.kids| == 2)
  }

  /** Chains of strings are static, however long and however nested, and nothing else is. Strings have no children. */
  lemma {:induction false} StaticIff(n: Node)
    requires forall m :: m in Preorder(n) && m.kind.StringLit? ==> m.kids == []
    ensures IsStaticConcat(n) <==> IsChainOfStrings(n)
  {
    assert n in Preorder(n);
    if n.kind == Binary(Plus) && |n.kids| == 2 {
      var a, b := n.kids[0], n.kids[1];
      assert n.kids[1..] == [b] && [b][1..] == [];
      assert PreorderAll([b]) == Preorder(b) + PreorderAll([]) == Preorder(b);
      assert PreorderAll(n.kids) == Preorder(a) + PreorderAll([b]);
      assert forall m :: m in Preorder(n) <==> m == n || m in Preorder(a) || m in Preorder(b);
      StaticIff(a);
      StaticIff(b);
    } else if n.kind.StringLit? {
      assert Preorder(n) == [n];
    }
  }

  /** The node at this place declares the name, no other does, and no node rebinds it. */
  ghost predicate OnlyDeclaration(name: string, ns: seq<Node>, k: nat) {
    && k < |ns| && Declares(ns[k], name)
    && (forall j :: 0 <= j < |ns| && j != k ==> !Declares(ns[j], name))
    && forall n :: n in ns ==> !Rebinds(n, name)
  }

  lemma {:induction false} OneDeclarationIff(name: string, ns: seq<Node>)
    ensures |Declarations(name, ns)| == 0 <==> forall j :: 0 <= j < |ns| ==> !Declares(ns[j], name)
    ensures |Declarations(name, ns)| == 1 <==>
            exists k :: 0 <= k < |ns| && Declares(ns[k], name) && Declarations(name, ns) == [ns[k]]
                        && forall j :: 0 <= j < |ns| && j != k ==> !Declares(ns[j], name)
  {
    if ns != [] {
      OneDeclarationIff(name, ns[1..]);
      var rest := Declarations(name, ns[1..]);
      assert forall j :: 0 < j < |ns| ==> ns[j] == ns[1..][j - 1];
      if !Declares(ns[0], name) && |rest| == 1 {
        var k :| 0 <= k < |ns[1..]| && Declares(ns[1..][k], name) && rest == [ns[1..][k]]
                 && forall j :: 0 <= j < |ns[1..]| && j != k ==> !Declares(ns[1..][j], name);
        assert ns[k + 1] == ns[1..][k];
      }
    }
  }

  /** The one declaration of the name stands at this place in preorder, and its initializer is static. */
  ghost predicate IsFixedAt(name: string, root: Node, k: nat) {
    var ns := Preorder(root);
    OnlyDeclaration(name, ns, k) && ns[k].kids != [] && IsStaticConcat(ns[k].kids[0])
  }

  /** A name is accepted if and only if it has one declaration, nothing rebinds it, and the initializer is static. */
  lemma {:induction false} NameIsAcceptedIff(name: string, root: Node)
    ensures ResolvesToStatic(name, root) <==> exists k: nat :: IsFixedAt(name, root, k)
  {
    if ResolvesToStatic(name, root) {
      var k := ResolvedDeclaration(name, root);
    }
    if k: nat :| IsFixedAt(name, root, k) {
      OnlyDeclarationResolves(name, root, k);
    }
  }

  lemma {:induction false} OnlyDeclarationResolves(name: string, root: Node, k: nat)
    requires IsFixedAt(name, root, k)
    ensures ResolvesToStatic(name, root)
  {
    var ns := Preorder(root);
    ReboundIff(name, ns);
    DeclarationsOfOne(name, ns, k);
    var init := ResolveInit(name, root);
    assert init == Some(ns[k].kids[0]);
    assert IsStaticConcat(init.value);
  }

  lemma {:induction false} ResolvedDeclaration(name: string, root: Node) returns (k: nat)
    requires ResolvesToStatic(name, root)
    ensures IsFixedAt(name, root, k)
  {
    var ns := Preorder(root);
    ReboundIff(name, ns);
    OneDeclarationIff(name, ns);
    k :| && 0 <= k < |ns| && Declares(ns[k], name) && Declarations(name, ns) == [ns[k]]
         && forall j :: 0 <= j < |ns| && j != k ==> !Declares(ns[j], name);
    assert ResolveInit(name, root) == InitializerOf(ns[k]);
  }

  lemma {:induction false} DeclarationsOfOne(name: string, ns: seq<Node>, k: nat)
    requires k < |ns| && Declares(ns[k], name) && forall j :: 0 <= j < |ns| && j != k ==> !Declares(ns[j], name)
    ensures Declarations(name, ns) == [ns[k]]
  {
    OneDeclarationIff(name, ns[1..]);
    if k > 0 {
      DeclarationsOfOne(name, ns[1..], k - 1);
    }
  }

  /** The place of an object's first `text` property. */
  ghost predicate IsFirstText(properties: seq<Node>, k: nat) {
    && k < |properties| && SetsText(properties[k])
    && forall j :: 0 <= j < k ==> !SetsText(properties[j])
  }

  /** `text: value`, or `text` alone. */
  predicate SetsText(p: Node) {
    p.kind == ShorthandProperty("text") || (p.kind == PropertyAssignment("text") && p.kids != [])
  }

  /** An object is accepted if and only if it has a first `text` property and that one's value is static. */
  lemma {:induction false} ObjectIsAcceptedIff(properties: seq<Node>, root: Node)
    ensures QueryArgIsSafe(Node(ObjectLit, properties), root) <==>
            exists k: nat :: && IsFirstText(properties, k)
                             && if properties[k].kind.ShorthandProperty? then ResolvesToStatic("text", root)
                                else IsStaticSql(properties[k].kids[0], root)
  {
    FirstTextIsTaken(properties);
    if k: nat :| IsFirstText(properties, k) {
      forall j: nat | IsFirstText(properties, j) ensures j == k {}
    }
  }

  lemma {:induction false} FirstTextIsTaken(properties: seq<Node>)
    ensures TextPropertyValue(properties).None? <==> forall k: nat :: !IsFirstText(properties, k)
    ensures forall k: nat :: IsFirstText(properties, k) ==>
              && TextPropertyValue(properties).Some?
              && var p := properties[k];
                 TextPropertyValue(properties).value
                 == if p.kind.ShorthandProperty? then Node(Identifier("text"), []) else p.kids[0]
  {
    if properties != [] {
      var rest := properties[1..];
      FirstTextIsTaken(rest);
      if SetsText(properties[0]) {
        assert IsFirstText(properties, 0);
      } else {
        forall k: nat ensures IsFirstText(properties, k + 1) <==> IsFirstText(rest, k) {
          if IsFirstText(rest, k) {
            assert forall j :: 0 < j <= k ==> properties[j] == rest[j - 1];
          }
          if IsFirstText(properties, k + 1) {
            assert forall j :: 0 <= j < k ==> rest[j] == properties[j + 1];
          }
        }
        forall k: nat | IsFirstText(properties, k)
          ensures k > 0 && IsFirstText(rest, k - 1) && properties[k] == rest[k - 1]
        {
          assert IsFirstText(properties, (k - 1) + 1);
        }
      }
    }
  }

  /**
    What a sink accepts: both kinds static text, a literal sink any primitive, and a query
    sink an object with a static `text`.
   */
  lemma {:induction false} AcceptedIff(kind: SinkKind, arg: Node, root: Node)
    ensures ArgIsSafe(kind, arg, root) <==>
            || IsStaticConcat(arg)
            || (arg.kind.Identifier? && ResolvesToStatic(arg.kind.name, root))
            || (kind.LiteralSink? && arg.kind.PrimitiveLit?)
            || (kind.QuerySink? && arg.kind.ObjectLit? && QueryArgIsSafe(Node(ObjectLit, arg.kids), root))
  {
    if arg.kind.ObjectLit? {
      assert arg == Node(ObjectLit, arg.kids);
    }
  }

  /** A bare call whose name no `sequelize` import binds is never reported. */
  lemma {:induction false} BareCallsNeedAnImport(n: Node, root: Node, lines: seq<string>)
    requires n.kind.Call? && n.kids != [] && n.kids[0].kind.Identifier?
    requires forall s :: s in SequelizeSpecifiers(root.kids) && SinkNamed(s.exported).Some? ==>
               s.local != n.kids[0].kind.name
    ensures !IsViolation(n, root, lines)
  {
    SinkNamesAreTheImportedOnes(SequelizeSpecifiers(root.kids), n.kids[0].kind.name);
  }
}
