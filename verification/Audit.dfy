/** The isolation audit: alias expansion, a body visitor, and the interprocedural summaries as least fixpoints. */
module Audits {
  import opened Results

  type Path = seq<string>
  type Aliases = map<string, Path>

  // Alias expansion.

  /** The innermost scope that knows the name decides. */
  function Lookup(scopes: seq<Aliases>, name: string): Option<Path> {
    if scopes == [] then None
    else
      var last := scopes[|scopes| - 1];
      if name in last then Some(last[name]) else Lookup(scopes[..|scopes| - 1], name)
  }

  function Names(scopes: seq<Aliases>): (names: set<string>)
    ensures forall name :: name in names <==> Lookup(scopes, name).Some?
  {
    if scopes == [] then {} else scopes[|scopes| - 1].Keys + Names(scopes[..|scopes| - 1])
  }

  /** Replaces the head as long as it is an alias not expanded before. */
  function Expand(scopes: seq<Aliases>, path: Path, expanded: set<string>): Path
    decreases Names(scopes) - expanded
  {
    if path == [] || path[0] in expanded || Lookup(scopes, path[0]).None? then path
    else
      assert path[0] in Names(scopes) - expanded;
      Expand(scopes, Lookup(scopes, path[0]).value + path[1..], expanded + {path[0]})
  }

  function Resolve(scopes: seq<Aliases>, path: Path): Path {
    if path == [] then []
    else
      var first := Lookup(scopes, path[0]);
      Expand(scopes, if first.Some? then first.value else [path[0]], {}) + path[1..]
  }

  method ResolveScopedPath(path: Path, scopes: seq<Aliases>) returns (result: Path, ghost steps: nat)
    ensures result == Resolve(scopes, path)
    ensures steps <= |Names(scopes)| + 1
  {
    steps := 0;
    if path == [] {
      return [], 0;
    }
    var first := Lookup(scopes, path[0]);
    result := if first.Some? then first.value else [path[0]];
    var expanded: set<string> := {};
    ghost var start := result;
    var more := true;
    while more && result != []
      invariant Expand(scopes, start, {}) == if more then Expand(scopes, result, expanded) else result
      invariant expanded <= Names(scopes) + if more then {} else expanded
      invariant more ==> steps == |expanded| && expanded <= Names(scopes)
      invariant steps <= |Names(scopes)| + 1
      decreases more, Names(scopes) - expanded
    {
      var head := result[0];
      SubsetSize(expanded, Names(scopes));
      steps := steps + 1;
      if head in expanded {
        more := false;
      } else {
        expanded := expanded + {head};
        var replacement := Lookup(scopes, head);
        if replacement.None? {
          more := false;
        } else {
          result := replacement.value + result[1..];
        }
      }
    }
    result := result + path[1..];
  }

  lemma SubsetSize<T>(a: set<T>, b: set<T>)
    requires a <= b
    ensures |a| <= |b|
  {
    assert b == a + (b - a);
  }

  /** The name `n` head replacements after `name`. */
  function Follow(scopes: seq<Aliases>, name: string, n: nat): Option<string>
    decreases n
  {
    if n == 0 then Some(name)
    else
      var target := Lookup(scopes, name);
      if target.None? || target.value == [] then None else Follow(scopes, target.value[0], n - 1)
  }

  /** Every alias names a path. */
  ghost predicate Proper(scopes: seq<Aliases>) {
    forall name :: Lookup(scopes, name).Some? ==> Lookup(scopes, name).value != []
  }

  ghost predicate OnCycle(scopes: seq<Aliases>, name: string) {
    exists n: nat :: n > 0 && Follow(scopes, name, n) == Some(name)
  }

  predicate Leads(scopes: seq<Aliases>, name: string, next: string) {
    var target := Lookup(scopes, name);
    target.Some? && target.value != [] && target.value[0] == next
  }

  /** Each name's alias starts with the next name. */
  ghost predicate Linked(scopes: seq<Aliases>, chain: seq<string>) {
    forall i, j | 0 <= i && j == i + 1 < |chain| :: Leads(scopes, chain[i], chain[j])
  }

  lemma {:induction false} FollowChain(scopes: seq<Aliases>, chain: seq<string>, i: nat)
    requires i < |chain| && Linked(scopes, chain)
    ensures Follow(scopes, chain[i], |chain| - 1 - i) == Some(chain[|chain| - 1])
    decreases |chain| - i
  {
    if i + 1 < |chain| {
      assert Leads(scopes, chain[i], chain[i + 1]);
      FollowChain(scopes, chain, i + 1);
    }
  }

  lemma {:induction false} ExpandEnds(scopes: seq<Aliases>, path: Path, chain: seq<string>)
    requires Proper(scopes) && path != [] && Linked(scopes, chain + [path[0]])
    ensures var end := Expand(scopes, path, set name <- chain);
            && end != []
            && (Lookup(scopes, end[0]).Some? ==> OnCycle(scopes, end[0]))
    decreases Names(scopes) - (set name <- chain)
  {
    var expanded := set name <- chain;
    var head := path[0];
    if head in expanded {
      var i :| 0 <= i < |chain| && chain[i] == head;
      FollowChain(scopes, chain + [head], i);
      assert Follow(scopes, head, |chain| - i) == Some(head);
    } else if Lookup(scopes, head).Some? {
      assert (set name <- chain + [head]) == expanded + {head};
      assert head in Names(scopes) - expanded;
      var next := Lookup(scopes, head).value + path[1..];
      assert Leads(scopes, head, next[0]);
      LinkedLonger(scopes, chain + [head], next[0]);
      ExpandEnds(scopes, next, chain + [head]);
    }
  }

  lemma LinkedLonger(scopes: seq<Aliases>, chain: seq<string>, next: string)
    requires chain != [] && Linked(scopes, chain) && Leads(scopes, chain[|chain| - 1], next)
    ensures Linked(scopes, chain + [next])
  {
    hide Leads;
  }

  /** Resolution ends at a head that is no alias, or at one that leads back to itself. */
  lemma ResolutionEnds(scopes: seq<Aliases>, path: Path)
    requires Proper(scopes) && path != []
    ensures var end := Resolve(scopes, path);
            && end != []
            && (Lookup(scopes, end[0]).Some? ==> OnCycle(scopes, end[0]))
  {
    var first := Lookup(scopes, path[0]);
    assert (set name: string <- []) == {};
    ExpandEnds(scopes, if first.Some? then first.value else [path[0]], []);
  }

  // The audited language.

  /**
   * Expressions, statements and types as the visitors tell them apart. `types` are the types written in a
   * path, `owner` is the type of a qualified call, `left` may nest tuples, and everything else is `Other`.
   */
  datatype Node =
    | Literal(system: bool, boot: bool)
    | PathOf(path: Path, types: seq<Node>)
    | TypeOf(path: Path)
    | Call(path: Path, owner: Option<string>, types: seq<Node>, args: seq<Node>)
    | MethodCall(receiver: Node, called: string, args: seq<Node>)
    | Macro(allowed: bool, includes: bool, system: bool, boot: bool, names: set<string>, args: seq<Node>)
    | Assign(left: Node, value: Node)
    | AddAssign(left: Node, value: Node)
    | Tuple(parts: seq<Node>)
    | Paren(inner: Node)
    | Reference(inner: Node)
    | StructOf(path: Path, parts: seq<Node>)
    | Local(pattern: Pattern, types: seq<Node>, init: Option<Node>)
    | ConstItem(name: string, value: Node)
    | UseItem(name: string, path: Path)
    | TypeItem(name: string, aliased: Node)
    | ReturnOf(result: Option<Node>)
    | Block(statements: seq<Node>, hasTail: bool)
    | Other(parts: seq<Node>)

  /** What a `let` binds: one name, with names below it, one annotated name, or any names. */
  datatype Pattern =
    | Ident(name: string, below: set<string>)
    | Annotated(name: string, declared: Option<string>)
    | Names(names: set<string>)
  {
    function Bound(): set<string> {
      match this
      case Ident(name, below) => {name} + below
      case Annotated(name, _) => {name}
      case Names(names) => names
    }
  }

  function Parts(node: Node): (parts: seq<Node>)
    ensures forall i | 0 <= i < |parts| :: parts[i] < node
  {
    match node
    case PathOf(_, types) => types
    case Call(_, _, types, args) => types + args
    case MethodCall(receiver, _, args) => [receiver] + args
    case Macro(_, _, _, _, _, args) => args
    case Assign(left, value) => [left, value]
    case AddAssign(left, value) => [left, value]
    case Tuple(parts) => parts
    case Paren(inner) => [inner]
    case Reference(inner) => [inner]
    case StructOf(_, parts) => parts
    case Local(_, types, init) => types + if init.Some? then [init.value] else []
    case ConstItem(_, value) => [value]
    case TypeItem(_, aliased) => [aliased]
    case ReturnOf(result) => if result.Some? then [result.value] else []
    case Block(statements, _) => statements
    case Other(parts) => parts
    case _ => []
  }

  datatype Key = Fn(name: string) | Method(owner: string, name: string)

  function Last(path: Path): string
    requires path != []
  {
    path[|path| - 1]
  }

  /** What the audit knows about paths and names beforehand. */
  datatype Rules = Rules(
    forbidden: Path -> bool, command: Path -> bool, filesystem: Path -> bool, libcPath: Path -> bool,
    typeName: string -> bool, runs: string -> bool, touchesFiles: string -> bool, writesBootNext: string -> bool)

  datatype Env = Env(
    rules: Rules, dangerous: set<Key>, tainted: set<Key>, boundaries: set<Key>, parameters: set<string>)

  /** The visitor's fields; only whether there are issues matters for a summary. */
  datatype Visitor = Visitor(
    scopes: seq<Aliases>, bindings: set<string>, boot: set<string>, receivers: map<string, string>,
    issues: bool, returnTainted: bool, parameterBoundary: bool)

  /** The expression mentions a protected path, directly or through tainted names. */
  predicate HasSystemPath(node: Node, bindings: set<string>, tainted: set<Key>) {
    || MentionsSystemPath(node, bindings, tainted)
    || exists i | 0 <= i < |Parts(node)| :: HasSystemPath(Parts(node)[i], bindings, tainted)
  }

  predicate MentionsSystemPath(node: Node, bindings: set<string>, tainted: set<Key>) {
    match node
    case Literal(system, _) => system
    case PathOf(path, _) => path != [] && path[0] in bindings
    case Call(path, _, _, _) => path != [] && (path[0] in bindings || Fn(Last(path)) in tainted)
    case Macro(_, _, system, _, names, _) => system || names * bindings != {}
    case _ => false
  }

  /** The expression mentions a parameter; the arguments of macros are not looked at. */
  predicate HasParameter(node: Node, parameters: set<string>) {
    || ((node.PathOf? || node.Call?) && node.path != [] && node.path[0] in parameters)
    || (!node.Macro? && exists i | 0 <= i < |Parts(node)| :: HasParameter(Parts(node)[i], parameters))
  }

  /** The expression mentions the boot order or the current entry, directly or through names bound to them. */
  predicate HasBootOrder(node: Node, boot: set<string>) {
    || ((node.Literal? || node.Macro?) && node.boot)
    || ((node.PathOf? || node.Call?) && node.path != [] && node.path[0] in boot)
    || exists i | 0 <= i < |Parts(node)| :: HasBootOrder(Parts(node)[i], boot)
  }

  predicate AnyBootOrder(args: seq<Node>, boot: set<string>) {
    exists i | 0 <= i < |args| :: HasBootOrder(args[i], boot)
  }

  predicate AnySystemPath(args: seq<Node>, env: Env, v: Visitor) {
    exists i | 0 <= i < |args| :: HasSystemPath(args[i], v.bindings, env.tainted)
  }

  predicate AnyParameter(args: seq<Node>, env: Env) {
    exists i | 0 <= i < |args| :: HasParameter(args[i], env.parameters)
  }

  /** `check_path` for a mention without arguments. */
  function CheckMention(path: Path, env: Env, v: Visitor): Visitor {
    if env.rules.forbidden(Resolve(v.scopes, path)) then v.(issues := true) else v
  }

  /** `check_path` for a call with arguments. */
  function CheckCall(path: Path, args: seq<Node>, env: Env, v: Visitor): Visitor {
    var canonical := Resolve(v.scopes, path);
    if env.rules.forbidden(canonical) then v.(issues := true)
    else if canonical != [] && Fn(Last(canonical)) in env.dangerous then v.(issues := true)
    else
      var system, parameter := AnySystemPath(args, env, v), AnyParameter(args, env);
      v.(parameterBoundary := v.parameterBoundary || (env.rules.filesystem(canonical) && parameter),
         issues := || v.issues
                   || (env.rules.filesystem(canonical) && system && !parameter)
                   || (canonical != [] && Fn(Last(canonical)) in env.boundaries && system)
                   || (env.rules.libcPath(canonical) && system))
  }

  predicate CommandReceiver(node: Node, rules: Rules, scopes: seq<Aliases>) {
    match node
    case PathOf(path, _) => rules.command(Resolve(scopes, path))
    case Call(path, _, _, _) => rules.command(Resolve(scopes, path))
    case MethodCall(receiver, _, _) => CommandReceiver(receiver, rules, scopes)
    case Paren(inner) => CommandReceiver(inner, rules, scopes)
    case _ => false
  }

  function ReceiverType(node: Node, rules: Rules, receivers: map<string, string>): Option<string> {
    match node
    case PathOf(path, _) =>
      if path == [] then None
      else if path[0] in receivers then Some(receivers[path[0]])
      else if Last(path) in receivers then Some(receivers[Last(path)])
      else if rules.typeName(Last(path)) then Some(Last(path))
      else None
    case Reference(inner) => ReceiverType(inner, rules, receivers)
    case Paren(inner) => ReceiverType(inner, rules, receivers)
    case StructOf(path, _) => if path == [] then None else Some(Last(path))
    case _ => None
  }

  /** The names an assignment to `left` marks. */
  function Targets(left: Node): set<string> {
    match left
    case PathOf(path, _) => if path == [] then {} else {Last(path)}
    case Tuple(parts) => set i, name | 0 <= i < |parts| && name in Targets(parts[i]) :: name
    case Paren(inner) => Targets(inner)
    case _ => {}
  }

  function Mark(names: set<string>, system: bool, boot: bool, v: Visitor): Visitor {
    v.(bindings := if system then v.bindings + names else v.bindings, boot := if boot then v.boot + names else v.boot)
  }

  /** Marks the names by what `value` mentions. */
  function MarkBy(names: set<string>, value: Node, env: Env, v: Visitor): Visitor {
    Mark(names, HasSystemPath(value, v.bindings, env.tainted), HasBootOrder(value, v.boot), v)
  }

  function CheckOwnedCall(path: Path, owner: Option<string>, env: Env, v: Visitor): Visitor {
    var canonical := Resolve(v.scopes, path);
    var owner' := if owner.Some? then owner
                  else if |canonical| >= 2 then Some(canonical[|canonical| - 2])
                  else None;
    if owner'.Some? && path != [] && Method(owner'.value, Last(path)) in env.dangerous then v.(issues := true) else v
  }

  /** A write of BootNext may not be given the boot order or the current entry. */
  function CheckBootNext(path: Path, args: seq<Node>, env: Env, v: Visitor): Visitor {
    var canonical := Resolve(v.scopes, path);
    if canonical != [] && env.rules.writesBootNext(Last(canonical)) && AnyBootOrder(args, v.boot) then
      v.(issues := true)
    else v
  }

  function CheckMethodCall(receiver: Node, name: string, args: seq<Node>, env: Env, v: Visitor): Visitor {
    var owner := ReceiverType(receiver, env.rules, v.receivers);
    var system := AnySystemPath(args, env, v);
    v.(issues := || v.issues
                 || (CommandReceiver(receiver, env.rules, v.scopes) && env.rules.runs(name))
                 || (env.rules.writesBootNext(name) && AnyBootOrder(args, v.boot))
                 || (owner.Some? && Method(owner.value, name) in env.dangerous)
                 || (receiver.PathOf? && env.rules.filesystem(Resolve(v.scopes, receiver.path)) && system)
                 || (env.rules.touchesFiles(name) && system))
  }

  /** An alias of the innermost scope. */
  function Bind(name: string, path: Path, v: Visitor): Visitor {
    if v.scopes == [] then v
    else v.(scopes := v.scopes[|v.scopes| - 1 := v.scopes[|v.scopes| - 1][name := path]])
  }

  /** A `let` of one name may tell the type behind it. */
  function Learn(pattern: Pattern, init: Option<Node>, env: Env, v: Visitor): Visitor {
    var typed := match pattern
      case Ident(_, _) => if init.Some? then ReceiverType(init.value, env.rules, v.receivers) else None
      case Annotated(_, declared) => declared
      case Names(_) => None;
    if typed.Some? && !pattern.Names? then v.(receivers := v.receivers[pattern.name := typed.value]) else v
  }

  /** What the visitor does at a node before its parts. */
  function Enter(node: Node, env: Env, v: Visitor): Visitor {
    match node
    case PathOf(path, _) => CheckMention(path, env, v)
    case TypeOf(path) => CheckMention(path, env, v)
    case Call(path, owner, _, args) =>
      CheckMention(
        path, env, CheckOwnedCall(path, owner, env, CheckBootNext(path, args, env, CheckCall(path, args, env, v))))
    case MethodCall(receiver, name, args) => CheckMethodCall(receiver, name, args, env, v)
    case Macro(allowed, includes, _, _, _, _) => if allowed && !includes then v else v.(issues := true)
    case Assign(left, value) => MarkBy(Targets(left), value, env, v)
    case AddAssign(left, value) => if left.PathOf? then MarkBy(Targets(left), value, env, v) else v
    case Local(pattern, _, init) =>
      var known := Learn(pattern, init, env, v);
      if init.Some? then MarkBy(pattern.Bound(), init.value, env, known) else known
    case ConstItem(name, value) => Mark({name}, HasSystemPath(value, v.bindings, env.tainted), false, v)
    case UseItem(name, path) => Bind(name, path, v)
    case TypeItem(name, aliased) =>
      if aliased.TypeOf? && aliased.path != [] then Bind(name, Resolve(v.scopes, aliased.path), v) else v
    case ReturnOf(result) =>
      if result.Some? && HasSystemPath(result.value, v.bindings, env.tainted) then v.(returnTainted := true) else v
    case Block(_, _) => v.(scopes := v.scopes + [map[]])
    case _ => v
  }

  /** What it does after them: a block's scope ends, and its tail may be a tainted value. */
  function Leave(node: Node, env: Env, v: Visitor): Visitor {
    if node.Block? then
      var closed := if v.scopes == [] then v else v.(scopes := v.scopes[..|v.scopes| - 1]);
      var statements := node.statements;
      if node.hasTail && statements != []
         && HasSystemPath(statements[|statements| - 1], v.bindings, env.tainted)
      then closed.(returnTainted := true)
      else closed
    else v
  }

  /** The parts of a macro that is not allowed are not looked at. */
  function Visited(node: Node): (parts: seq<Node>)
    ensures forall i | 0 <= i < |parts| :: parts[i] < node
  {
    if node.Macro? && !node.allowed then [] else Parts(node)
  }

  function Visit(node: Node, env: Env, v: Visitor): Visitor
    decreases node, |Visited(node)| + 1
  {
    Leave(node, env, VisitParts(node, 0, env, Enter(node, env, v)))
  }

  function VisitParts(node: Node, i: nat, env: Env, v: Visitor): Visitor
    requires i <= |Visited(node)|
    decreases node, |Visited(node)| - i
  {
    if i == |Visited(node)| then v
    else VisitParts(node, i + 1, env, Visit(Visited(node)[i], env, v))
  }

  datatype Function = Function(
    name: string, owner: Option<string>, body: Node, aliases: Aliases, parameters: set<string>, testOnly: bool)
  {
    function KeyOf(): Key {
      if owner.Some? then Method(owner.value, name) else Fn(name)
    }

    function Audit(rules: Rules, dangerous: set<Key>, tainted: set<Key>, boundaries: set<Key>):
      Visitor
    {
      Visit(body, Env(rules, dangerous, tainted, boundaries, parameters),
            Visitor([aliases], {}, {}, map[], false, false, false))
    }
  }

  // The visitor is monotone in what it is told.

  ghost predicate EnvBelow(a: Env, b: Env) {
    && a.rules == b.rules && a.parameters == b.parameters
    && a.dangerous <= b.dangerous && a.tainted <= b.tainted && a.boundaries <= b.boundaries
  }

  ghost predicate Below(a: Visitor, b: Visitor) {
    && a.scopes == b.scopes && a.receivers == b.receivers && a.bindings <= b.bindings && a.boot == b.boot
    && (a.issues ==> b.issues) && (a.returnTainted ==> b.returnTainted)
  }

  lemma {:induction false} TaintGrows(
    node: Node, bindings: set<string>, tainted: set<Key>, bindings': set<string>, tainted': set<Key>)
    requires bindings <= bindings' && tainted <= tainted'
    requires HasSystemPath(node, bindings, tainted)
    ensures HasSystemPath(node, bindings', tainted')
  {
    if !MentionsSystemPath(node, bindings, tainted) {
      var i :| 0 <= i < |Parts(node)| && HasSystemPath(Parts(node)[i], bindings, tainted);
      TaintGrows(Parts(node)[i], bindings, tainted, bindings', tainted');
    }
  }

  lemma AnyTaintGrows(args: seq<Node>, a: Env, b: Env, v: Visitor, w: Visitor)
    requires EnvBelow(a, b) && Below(v, w)
    ensures AnySystemPath(args, a, v) ==> AnySystemPath(args, b, w)
  {
    if AnySystemPath(args, a, v) {
      var i :| 0 <= i < |args| && HasSystemPath(args[i], v.bindings, a.tainted);
      TaintGrows(args[i], v.bindings, a.tainted, w.bindings, b.tainted);
    }
  }

  lemma CheckCallGrows(path: Path, args: seq<Node>, a: Env, b: Env, v: Visitor, w: Visitor)
    requires EnvBelow(a, b) && Below(v, w)
    ensures Below(CheckCall(path, args, a, v), CheckCall(path, args, b, w))
  {
    AnyTaintGrows(args, a, b, v, w);
    hide AnySystemPath, AnyParameter, Resolve;
    assert AnyParameter(args, a) == AnyParameter(args, b) by {
      SameParameters(args, a, b);
    }
  }

  lemma SameParameters(args: seq<Node>, a: Env, b: Env)
    requires EnvBelow(a, b)
    ensures AnyParameter(args, a) == AnyParameter(args, b)
  {
  }

  lemma CheckMethodCallGrows(
    receiver: Node, name: string, args: seq<Node>, a: Env, b: Env, v: Visitor, w: Visitor)
    requires EnvBelow(a, b) && Below(v, w)
    ensures Below(CheckMethodCall(receiver, name, args, a, v), CheckMethodCall(receiver, name, args, b, w))
  {
    AnyTaintGrows(args, a, b, v, w);
    hide AnySystemPath, AnyBootOrder, Resolve, CommandReceiver, ReceiverType;
  }

  lemma CheckMentionGrows(path: Path, a: Env, b: Env, v: Visitor, w: Visitor)
    requires EnvBelow(a, b) && Below(v, w)
    ensures Below(CheckMention(path, a, v), CheckMention(path, b, w))
  {
    hide Resolve;
  }

  lemma CheckOwnedCallGrows(path: Path, owner: Option<string>, a: Env, b: Env, v: Visitor, w: Visitor)
    requires EnvBelow(a, b) && Below(v, w)
    ensures Below(CheckOwnedCall(path, owner, a, v), CheckOwnedCall(path, owner, b, w))
  {
    hide Resolve;
  }

  lemma CheckBootNextGrows(path: Path, args: seq<Node>, a: Env, b: Env, v: Visitor, w: Visitor)
    requires EnvBelow(a, b) && Below(v, w)
    ensures Below(CheckBootNext(path, args, a, v), CheckBootNext(path, args, b, w))
  {
    hide Resolve, AnyBootOrder;
  }

  lemma TaintStays(node: Node, a: Env, b: Env, v: Visitor, w: Visitor)
    requires EnvBelow(a, b) && Below(v, w)
    ensures HasSystemPath(node, v.bindings, a.tainted) ==> HasSystemPath(node, w.bindings, b.tainted)
  {
    if HasSystemPath(node, v.bindings, a.tainted) {
      TaintGrows(node, v.bindings, a.tainted, w.bindings, b.tainted);
    }
  }

  lemma MarkByGrows(names: set<string>, value: Node, a: Env, b: Env, v: Visitor, w: Visitor)
    requires EnvBelow(a, b) && Below(v, w)
    ensures Below(MarkBy(names, value, a, v), MarkBy(names, value, b, w))
  {
    TaintStays(value, a, b, v, w);
    hide HasSystemPath, HasBootOrder;
  }

  lemma EnterCallGrows(
    path: Path, owner: Option<string>, types: seq<Node>, args: seq<Node>, a: Env, b: Env, v: Visitor, w: Visitor)
    requires EnvBelow(a, b) && Below(v, w)
    ensures Below(Enter(Call(path, owner, types, args), a, v), Enter(Call(path, owner, types, args), b, w))
  {
    hide CheckCall, CheckBootNext, CheckMention, CheckOwnedCall, Below, EnvBelow;
    var v1, w1 := CheckCall(path, args, a, v), CheckCall(path, args, b, w);
    var v2, w2 := CheckBootNext(path, args, a, v1), CheckBootNext(path, args, b, w1);
    CheckCallGrows(path, args, a, b, v, w);
    CheckBootNextGrows(path, args, a, b, v1, w1);
    CheckOwnedCallGrows(path, owner, a, b, v2, w2);
    CheckMentionGrows(path, a, b, CheckOwnedCall(path, owner, a, v2), CheckOwnedCall(path, owner, b, w2));
  }

  lemma EnterLocalGrows(
    pattern: Pattern, types: seq<Node>, init: Option<Node>, a: Env, b: Env, v: Visitor, w: Visitor)
    requires EnvBelow(a, b) && Below(v, w)
    ensures Below(Enter(Local(pattern, types, init), a, v), Enter(Local(pattern, types, init), b, w))
  {
    hide MarkBy;
    assert Below(Learn(pattern, init, a, v), Learn(pattern, init, b, w)) by {
      hide ReceiverType;
    }
    hide Learn, Below, EnvBelow;
    if init.Some? {
      MarkByGrows(pattern.Bound(), init.value, a, b, Learn(pattern, init, a, v), Learn(pattern, init, b, w));
    }
  }

  lemma EnterItemGrows(node: Node, a: Env, b: Env, v: Visitor, w: Visitor)
    requires node.ConstItem? || node.UseItem? || node.TypeItem? || node.ReturnOf? || node.Block? || node.Macro?
    requires EnvBelow(a, b) && Below(v, w)
    ensures Below(Enter(node, a, v), Enter(node, b, w))
  {
    hide HasSystemPath, Resolve;
    match node
    case ConstItem(_, value) => TaintStays(value, a, b, v, w);
    case ReturnOf(result) => if result.Some? { TaintStays(result.value, a, b, v, w); }
    case _ =>
  }

  lemma EnterGrows(node: Node, a: Env, b: Env, v: Visitor, w: Visitor)
    requires EnvBelow(a, b) && Below(v, w)
    ensures Below(Enter(node, a, v), Enter(node, b, w))
  {
    hide Below, EnvBelow, MarkBy, CheckMention, CheckMethodCall, CheckCall, CheckOwnedCall, CheckBootNext, Learn;
    hide HasSystemPath, Targets;
    match node
    case PathOf(path, _) => CheckMentionGrows(path, a, b, v, w);
    case TypeOf(path) => CheckMentionGrows(path, a, b, v, w);
    case Call(path, owner, types, args) => EnterCallGrows(path, owner, types, args, a, b, v, w);
    case MethodCall(receiver, name, args) => CheckMethodCallGrows(receiver, name, args, a, b, v, w);
    case Assign(left, value) => MarkByGrows(Targets(left), value, a, b, v, w);
    case AddAssign(left, value) => MarkByGrows(Targets(left), value, a, b, v, w);
    case Local(pattern, types, init) => EnterLocalGrows(pattern, types, init, a, b, v, w);
    case ConstItem(_, _) => EnterItemGrows(node, a, b, v, w);
    case UseItem(_, _) => EnterItemGrows(node, a, b, v, w);
    case TypeItem(_, _) => EnterItemGrows(node, a, b, v, w);
    case ReturnOf(_) => EnterItemGrows(node, a, b, v, w);
    case Block(_, _) => EnterItemGrows(node, a, b, v, w);
    case Macro(_, _, _, _, _, _) => EnterItemGrows(node, a, b, v, w);
    case _ =>
  }

  lemma LeaveGrows(node: Node, a: Env, b: Env, v: Visitor, w: Visitor)
    requires EnvBelow(a, b) && Below(v, w)
    ensures Below(Leave(node, a, v), Leave(node, b, w))
  {
    if node.Block? && node.statements != [] {
      TaintStays(node.statements[|node.statements| - 1], a, b, v, w);
    }
    hide HasSystemPath;
  }

  lemma {:induction false} VisitGrows(node: Node, a: Env, b: Env, v: Visitor, w: Visitor)
    requires EnvBelow(a, b) && Below(v, w)
    ensures Below(Visit(node, a, v), Visit(node, b, w))
    decreases node, |Visited(node)| + 1
  {
    EnterGrows(node, a, b, v, w);
    VisitPartsGrows(node, 0, a, b, Enter(node, a, v), Enter(node, b, w));
    LeaveGrows(node, a, b, VisitParts(node, 0, a, Enter(node, a, v)), VisitParts(node, 0, b, Enter(node, b, w)));
    hide Below, EnvBelow, Enter, Leave;
  }

  lemma {:induction false} VisitPartsGrows(node: Node, i: nat, a: Env, b: Env, v: Visitor, w: Visitor)
    requires i <= |Visited(node)| && EnvBelow(a, b) && Below(v, w)
    ensures Below(VisitParts(node, i, a, v), VisitParts(node, i, b, w))
    decreases node, |Visited(node)| - i
  {
    hide Below, EnvBelow;
    if i < |Visited(node)| {
      var part := Visited(node)[i];
      VisitGrows(part, a, b, v, w);
      VisitPartsGrows(node, i + 1, a, b, Visit(part, a, v), Visit(part, b, w));
    }
  }

  // Parameter boundaries do not depend on each other.

  ghost predicate SameButBoundaries(a: Env, b: Env) {
    a.(boundaries := b.boundaries) == b
  }

  ghost predicate SameButIssues(v: Visitor, w: Visitor) {
    v.(issues := w.issues) == w
  }

  lemma SameArguments(args: seq<Node>, a: Env, b: Env, v: Visitor, w: Visitor)
    requires SameButBoundaries(a, b) && SameButIssues(v, w)
    ensures AnySystemPath(args, a, v) == AnySystemPath(args, b, w) && AnyParameter(args, a) == AnyParameter(args, b)
  {
    hide HasSystemPath, HasParameter;
  }

  lemma CheckCallIgnoresBoundaries(path: Path, args: seq<Node>, a: Env, b: Env, v: Visitor, w: Visitor)
    requires SameButBoundaries(a, b) && SameButIssues(v, w)
    ensures SameButIssues(CheckCall(path, args, a, v), CheckCall(path, args, b, w))
  {
    SameArguments(args, a, b, v, w);
    hide AnySystemPath, AnyParameter, Resolve;
  }

  lemma MentionIgnoresBoundaries(path: Path, a: Env, b: Env, v: Visitor, w: Visitor)
    requires SameButBoundaries(a, b) && SameButIssues(v, w)
    ensures SameButIssues(CheckMention(path, a, v), CheckMention(path, b, w))
  {
    hide Resolve;
  }

  lemma OwnedCallIgnoresBoundaries(
    path: Path, owner: Option<string>, args: seq<Node>, a: Env, b: Env, v: Visitor, w: Visitor)
    requires SameButBoundaries(a, b) && SameButIssues(v, w)
    ensures SameButIssues(CheckOwnedCall(path, owner, a, v), CheckOwnedCall(path, owner, b, w))
    ensures SameButIssues(CheckBootNext(path, args, a, v), CheckBootNext(path, args, b, w))
  {
    hide Resolve, AnyBootOrder;
  }

  lemma CallIgnoresBoundaries(
    path: Path, owner: Option<string>, types: seq<Node>, args: seq<Node>, a: Env, b: Env, v: Visitor, w: Visitor)
    requires SameButBoundaries(a, b) && SameButIssues(v, w)
    ensures SameButIssues(Enter(Call(path, owner, types, args), a, v), Enter(Call(path, owner, types, args), b, w))
  {
    hide CheckCall, CheckBootNext, CheckMention, CheckOwnedCall, SameButIssues, SameButBoundaries;
    var v1, w1 := CheckCall(path, args, a, v), CheckCall(path, args, b, w);
    var v2, w2 := CheckBootNext(path, args, a, v1), CheckBootNext(path, args, b, w1);
    CheckCallIgnoresBoundaries(path, args, a, b, v, w);
    OwnedCallIgnoresBoundaries(path, owner, args, a, b, v1, w1);
    OwnedCallIgnoresBoundaries(path, owner, args, a, b, v2, w2);
    MentionIgnoresBoundaries(path, a, b, CheckOwnedCall(path, owner, a, v2), CheckOwnedCall(path, owner, b, w2));
  }

  lemma MethodCallIgnoresBoundaries(
    receiver: Node, name: string, args: seq<Node>, a: Env, b: Env, v: Visitor, w: Visitor)
    requires SameButBoundaries(a, b) && SameButIssues(v, w)
    ensures SameButIssues(Enter(MethodCall(receiver, name, args), a, v), Enter(MethodCall(receiver, name, args), b, w))
  {
    hide AnySystemPath, AnyBootOrder, Resolve, CommandReceiver, ReceiverType;
  }

  lemma LocalIgnoresBoundaries(
    pattern: Pattern, types: seq<Node>, init: Option<Node>, a: Env, b: Env, v: Visitor, w: Visitor)
    requires SameButBoundaries(a, b) && SameButIssues(v, w)
    ensures SameButIssues(Enter(Local(pattern, types, init), a, v), Enter(Local(pattern, types, init), b, w))
  {
    hide HasSystemPath, HasBootOrder, ReceiverType;
  }

  lemma PlainIgnoresBoundaries(node: Node, a: Env, b: Env, v: Visitor, w: Visitor)
    requires !node.Call? && !node.MethodCall? && !node.Local? && SameButBoundaries(a, b) && SameButIssues(v, w)
    ensures SameButIssues(Enter(node, a, v), Enter(node, b, w))
  {
    hide HasSystemPath, HasBootOrder, Resolve, Targets;
    hide CheckMention, CheckCall, CheckOwnedCall, CheckBootNext, CheckMethodCall, Learn;
    if node.PathOf? || node.TypeOf? {
      MentionIgnoresBoundaries(node.path, a, b, v, w);
    }
  }

  lemma EnterIgnoresBoundaries(node: Node, a: Env, b: Env, v: Visitor, w: Visitor)
    requires SameButBoundaries(a, b) && SameButIssues(v, w)
    ensures SameButIssues(Enter(node, a, v), Enter(node, b, w))
  {
    hide Enter, SameButBoundaries, SameButIssues;
    match node
    case Call(path, owner, types, args) => CallIgnoresBoundaries(path, owner, types, args, a, b, v, w);
    case MethodCall(receiver, name, args) => MethodCallIgnoresBoundaries(receiver, name, args, a, b, v, w);
    case Local(pattern, types, init) => LocalIgnoresBoundaries(pattern, types, init, a, b, v, w);
    case _ => PlainIgnoresBoundaries(node, a, b, v, w);
  }

  lemma {:induction false} VisitIgnoresBoundaries(node: Node, a: Env, b: Env, v: Visitor, w: Visitor)
    requires SameButBoundaries(a, b) && SameButIssues(v, w)
    ensures SameButIssues(Visit(node, a, v), Visit(node, b, w))
    decreases node, |Visited(node)| + 1
  {
    EnterIgnoresBoundaries(node, a, b, v, w);
    VisitPartsIgnoresBoundaries(node, 0, a, b, Enter(node, a, v), Enter(node, b, w));
    LeaveIgnoresBoundaries(
      node, a, b, VisitParts(node, 0, a, Enter(node, a, v)), VisitParts(node, 0, b, Enter(node, b, w)));
    hide SameButIssues, SameButBoundaries, Enter, Leave;
  }

  lemma LeaveIgnoresBoundaries(node: Node, a: Env, b: Env, v: Visitor, w: Visitor)
    requires SameButBoundaries(a, b) && SameButIssues(v, w)
    ensures SameButIssues(Leave(node, a, v), Leave(node, b, w))
  {
    hide HasSystemPath;
  }

  lemma {:induction false} VisitPartsIgnoresBoundaries(node: Node, i: nat, a: Env, b: Env, v: Visitor, w: Visitor)
    requires i <= |Visited(node)| && SameButBoundaries(a, b) && SameButIssues(v, w)
    ensures SameButIssues(VisitParts(node, i, a, v), VisitParts(node, i, b, w))
    decreases node, |Visited(node)| - i
  {
    hide SameButIssues, SameButBoundaries;
    if i < |Visited(node)| {
      var part := Visited(node)[i];
      VisitIgnoresBoundaries(part, a, b, v, w);
      VisitPartsIgnoresBoundaries(node, i + 1, a, b, Visit(part, a, v), Visit(part, b, w));
    }
  }

  // The summaries.

  datatype TraitImpl = TraitImpl(traitName: string, owner: string, methods: set<string>)

  datatype Program = Program(rules: Rules, functions: seq<Function>, impls: seq<TraitImpl>)

  function AuditOf(p: Program, f: Function, dangerous: set<Key>, tainted: set<Key>, boundaries: set<Key>): Visitor {
    f.Audit(p.rules, dangerous, tainted, boundaries)
  }

  lemma AuditGrows(
    p: Program, f: Function, dangerous: set<Key>, tainted: set<Key>, boundaries: set<Key>,
    dangerous': set<Key>, tainted': set<Key>)
    requires dangerous <= dangerous' && tainted <= tainted'
    ensures Below(AuditOf(p, f, dangerous, tainted, boundaries), AuditOf(p, f, dangerous', tainted', boundaries))
  {
    var start := Visitor([f.aliases], {}, {}, map[], false, false, false);
    VisitGrows(
      f.body, Env(p.rules, dangerous, tainted, boundaries, f.parameters),
      Env(p.rules, dangerous', tainted', boundaries, f.parameters), start, start);
    hide Visit;
  }

  /** Every function that returns a protected path, given the set, is in it. */
  ghost predicate TaintClosed(p: Program, tainted: set<Key>) {
    forall f <- p.functions :: !f.testOnly && AuditOf(p, f, {}, tainted, {}).returnTainted ==> f.KeyOf() in tainted
  }

  /** Closed under the audit of bodies and under inheriting a trait's default methods. */
  ghost predicate DangerClosed(p: Program, tainted: set<Key>, boundaries: set<Key>, dangerous: set<Key>) {
    && (forall f <- p.functions ::
          !f.testOnly && AuditOf(p, f, dangerous, tainted, boundaries).issues ==> f.KeyOf() in dangerous)
    && (forall impl <- p.impls, name: string ::
          Method(impl.traitName, name) in dangerous && name !in impl.methods ==> Method(impl.owner, name) in dangerous)
  }

  /** All keys a summary can hold: its functions', and their names under the implementing types. */
  function Universe(p: Program): set<Key> {
    (set f <- p.functions :: f.KeyOf())
    + (set f <- p.functions, impl <- p.impls :: Method(impl.owner, f.name))
  }

  lemma KeyInUniverse(p: Program, f: Function)
    requires f in p.functions
    ensures f.KeyOf() in Universe(p)
  {
  }

  lemma TaintForces(p: Program, f: Function, tainted: set<Key>, other: set<Key>)
    requires f in p.functions && !f.testOnly && AuditOf(p, f, {}, tainted, {}).returnTainted
    requires TaintClosed(p, other) && tainted <= other
    ensures f.KeyOf() in other
  {
    AuditGrows(p, f, {}, tainted, {}, {}, other);
    hide AuditOf;
  }

  lemma DangerForces(
    p: Program, f: Function, tainted: set<Key>, boundaries: set<Key>, known: set<Key>, other: set<Key>)
    requires f in p.functions && !f.testOnly && AuditOf(p, f, known, tainted, boundaries).issues
    requires DangerClosed(p, tainted, boundaries, other) && known <= other
    ensures f.KeyOf() in other
  {
    AuditGrows(p, f, known, tainted, boundaries, other, tainted);
    hide AuditOf;
  }

  method CollectTainted(p: Program) returns (tainted: set<Key>)
    ensures LeastTaint(p, tainted)
  {
    hide AuditOf, Universe;
    tainted := {};
    while true
      invariant tainted <= Universe(p)
      invariant forall other: set<Key> | TaintClosed(p, other) :: tainted <= other
      decreases Universe(p) - tainted
    {
      var additions: set<Key> := {};
      for i := 0 to |p.functions|
        invariant additions <= Universe(p)
        invariant forall f <- p.functions[..i] ::
                    !f.testOnly && AuditOf(p, f, {}, tainted, {}).returnTainted ==> f.KeyOf() in additions
        invariant forall other: set<Key> | TaintClosed(p, other) :: additions <= other
      {
        var f := p.functions[i];
        if !f.testOnly && AuditOf(p, f, {}, tainted, {}).returnTainted {
          KeyInUniverse(p, f);
          forall other: set<Key> | TaintClosed(p, other) ensures f.KeyOf() in other {
            TaintForces(p, f, tainted, other);
          }
          additions := additions + {f.KeyOf()};
        }
      }
      if additions <= tainted {
        return;
      }
      tainted := tainted + additions;
    }
  }

  /** The functions whose own bodies use a parameter at the file system boundary. */
  function BoundaryKeys(p: Program, tainted: set<Key>): set<Key> {
    set f <- p.functions | !f.testOnly && AuditOf(p, f, {}, tainted, {}).parameterBoundary :: f.KeyOf()
  }

  /** One pass suffices: what the pass has found so far never changes what a body does with its parameters. */
  method CollectParameterBoundaries(p: Program, tainted: set<Key>) returns (boundaries: set<Key>)
    ensures boundaries == BoundaryKeys(p, tainted)
  {
    hide AuditOf;
    boundaries := {};
    for i := 0 to |p.functions|
      invariant boundaries == set f <- p.functions[..i]
                              | !f.testOnly && AuditOf(p, f, {}, tainted, {}).parameterBoundary :: f.KeyOf()
    {
      var f := p.functions[i];
      assert p.functions[..i + 1] == p.functions[..i] + [f];
      FlagIgnoresBoundaries(p, f, tainted, boundaries);
      if !f.testOnly && AuditOf(p, f, {}, tainted, boundaries).parameterBoundary {
        boundaries := boundaries + {f.KeyOf()};
      }
    }
    assert p.functions[..|p.functions|] == p.functions;
  }

  lemma FlagIgnoresBoundaries(p: Program, f: Function, tainted: set<Key>, boundaries: set<Key>)
    ensures AuditOf(p, f, {}, tainted, boundaries).parameterBoundary
         == AuditOf(p, f, {}, tainted, {}).parameterBoundary
  {
    var start := Visitor([f.aliases], {}, {}, map[], false, false, false);
    VisitIgnoresBoundaries(
      f.body, Env(p.rules, {}, tainted, boundaries, f.parameters),
      Env(p.rules, {}, tainted, {}, f.parameters), start, start);
    hide Visit;
  }

  method CollectDangerous(p: Program, tainted: set<Key>, boundaries: set<Key>) returns (dangerous: set<Key>)
    ensures LeastDanger(p, tainted, boundaries, dangerous)
  {
    dangerous := {};
    while true
      invariant dangerous <= Universe(p)
      invariant forall other: set<Key> | DangerClosed(p, tainted, boundaries, other) :: dangerous <= other
      decreases Universe(p) - dangerous
    {
      var known := dangerous;
      var additions := AuditBodies(p, tainted, boundaries, known);
      dangerous := dangerous + additions;
      dangerous := InheritDefaults(p, tainted, boundaries, dangerous);
      if dangerous == known {
        return;
      }
    }
  }

  method AuditBodies(p: Program, tainted: set<Key>, boundaries: set<Key>, known: set<Key>)
    returns (additions: set<Key>)
    ensures additions == set f <- p.functions
                         | !f.testOnly && AuditOf(p, f, known, tainted, boundaries).issues :: f.KeyOf()
    ensures additions <= Universe(p)
    ensures forall other: set<Key> | DangerClosed(p, tainted, boundaries, other) && known <= other :: additions <= other
  {
    hide AuditOf, Universe, DangerClosed;
    additions := {};
    for i := 0 to |p.functions|
      invariant additions == set f <- p.functions[..i]
                             | !f.testOnly && AuditOf(p, f, known, tainted, boundaries).issues :: f.KeyOf()
      invariant additions <= Universe(p)
      invariant forall other: set<Key> | DangerClosed(p, tainted, boundaries, other) && known <= other ::
                  additions <= other
    {
      var f := p.functions[i];
      if !f.testOnly && AuditOf(p, f, known, tainted, boundaries).issues {
        KeyInUniverse(p, f);
        forall other: set<Key> | DangerClosed(p, tainted, boundaries, other) && known <= other
          ensures f.KeyOf() in other
        {
          DangerForces(p, f, tainted, boundaries, known, other);
        }
        additions := additions + {f.KeyOf()};
      }
    }
    assert p.functions[..|p.functions|] == p.functions;
  }

  /** One pass over the implementations; each walks the set in whatever order it comes. */
  method InheritDefaults(p: Program, ghost tainted: set<Key>, ghost boundaries: set<Key>, before: set<Key>)
    returns (dangerous: set<Key>)
    requires before <= Universe(p)
    ensures before <= dangerous <= Universe(p)
    ensures forall other: set<Key> | DangerClosed(p, tainted, boundaries, other) && before <= other ::
              dangerous <= other
    ensures forall impl <- p.impls, name: string ::
              Method(impl.traitName, name) in before && name !in impl.methods ==> Method(impl.owner, name) in dangerous
  {
    hide DangerClosed, Universe;
    dangerous := before;
    for i := 0 to |p.impls|
      invariant before <= dangerous <= Universe(p)
      invariant forall other: set<Key> | DangerClosed(p, tainted, boundaries, other) && before <= other ::
                  dangerous <= other
      invariant forall impl <- p.impls[..i], name: string ::
                  Method(impl.traitName, name) in before && name !in impl.methods ==>
                    Method(impl.owner, name) in dangerous
    {
      ghost var was := dangerous;
      dangerous := InheritFrom(p, p.impls[i], dangerous);
      forall other: set<Key> | DangerClosed(p, tainted, boundaries, other) && before <= other
        ensures dangerous <= other
      {
        InheritedIsForced(p, p.impls[i], tainted, boundaries, was, other);
      }
    }
  }

  /** The methods that an implementation inherits from a set of dangerous ones. */
  ghost predicate Inherits(impl: TraitImpl, known: set<Key>, key: Key) {
    key.Method? && key.owner == impl.owner && key.name !in impl.methods && Method(impl.traitName, key.name) in known
  }

  /** The walk over the known set for one implementation. */
  method InheritFrom(p: Program, impl: TraitImpl, known: set<Key>) returns (dangerous: set<Key>)
    requires impl in p.impls && known <= Universe(p)
    ensures known <= dangerous <= Universe(p)
    ensures forall key :: key in dangerous <==> key in known || Inherits(impl, known, key)
  {
    hide Universe;
    dangerous := known;
    var remaining := known;
    while remaining != {}
      invariant remaining <= known <= dangerous <= Universe(p)
      invariant forall key | key in dangerous :: key in known || Inherits(impl, known, key)
      invariant forall key | Inherits(impl, known - remaining, key) :: key in dangerous
      decreases remaining
    {
      var key :| key in remaining;
      remaining := remaining - {key};
      if key.Method? && key.owner == impl.traitName && key.name !in impl.methods {
        InheritedInUniverse(p, key, impl);
        dangerous := dangerous + {Method(impl.owner, key.name)};
      }
    }
  }

  lemma InheritedIsForced(
    p: Program, impl: TraitImpl, tainted: set<Key>, boundaries: set<Key>, known: set<Key>, other: set<Key>)
    requires impl in p.impls && DangerClosed(p, tainted, boundaries, other) && known <= other
    ensures forall key | Inherits(impl, known, key) :: key in other
  {
  }

  lemma InheritedInUniverse(p: Program, key: Key, impl: TraitImpl)
    requires key in Universe(p) && key.Method? && impl in p.impls
    ensures Method(impl.owner, key.name) in Universe(p)
  {
    var f :| f in p.functions && f.name == key.name;
  }

  // Independence of order.

  /** The same functions and implementations, in any order. */
  ghost predicate SameProgram(p: Program, q: Program) {
    && p.rules == q.rules
    && (forall f: Function :: f in p.functions <==> f in q.functions)
    && (forall impl: TraitImpl :: impl in p.impls <==> impl in q.impls)
  }

  ghost predicate LeastTaint(p: Program, tainted: set<Key>) {
    TaintClosed(p, tainted) && forall other: set<Key> | TaintClosed(p, other) :: tainted <= other
  }

  ghost predicate LeastDanger(p: Program, tainted: set<Key>, boundaries: set<Key>, dangerous: set<Key>) {
    && DangerClosed(p, tainted, boundaries, dangerous)
    && forall other: set<Key> | DangerClosed(p, tainted, boundaries, other) :: dangerous <= other
  }

  /** The results of the three collections, each given the ones before it. */
  ghost predicate Summarised(p: Program, tainted: set<Key>, boundaries: set<Key>, dangerous: set<Key>) {
    && LeastTaint(p, tainted) && boundaries == BoundaryKeys(p, tainted)
    && LeastDanger(p, tainted, boundaries, dangerous)
  }

  /** The collections in the order the audit runs them. */
  method Summarise(p: Program) returns (tainted: set<Key>, boundaries: set<Key>, dangerous: set<Key>)
    ensures Summarised(p, tainted, boundaries, dangerous)
  {
    tainted := CollectTainted(p);
    boundaries := CollectParameterBoundaries(p, tainted);
    dangerous := CollectDangerous(p, tainted, boundaries);
  }

  /** All three summaries depend on the program's functions and implementations, not on the order they are found in. */
  lemma OrderIsIrrelevant(
    p: Program, q: Program, taintedP: set<Key>, taintedQ: set<Key>, boundariesP: set<Key>, boundariesQ: set<Key>,
    dangerousP: set<Key>, dangerousQ: set<Key>)
    requires SameProgram(p, q)
    requires Summarised(p, taintedP, boundariesP, dangerousP) && Summarised(q, taintedQ, boundariesQ, dangerousQ)
    ensures taintedP == taintedQ && boundariesP == boundariesQ && dangerousP == dangerousQ
  {
    SameClosures(p, q, taintedP, boundariesP, dangerousP);
    SameClosures(p, q, taintedQ, boundariesQ, dangerousQ);
    SameBoundaries(p, q, taintedP);
    hide TaintClosed, DangerClosed, BoundaryKeys;
  }

  lemma SameBoundaries(p: Program, q: Program, tainted: set<Key>)
    requires SameProgram(p, q)
    ensures BoundaryKeys(p, tainted) == BoundaryKeys(q, tainted)
  {
    forall f: Function ensures AuditOf(p, f, {}, tainted, {}) == AuditOf(q, f, {}, tainted, {}) {
      SameAudit(p, q, f, {}, tainted, {});
    }
    hide AuditOf;
    assert forall key :: key in BoundaryKeys(p, tainted) <==> key in BoundaryKeys(q, tainted);
  }

  lemma SameClosures(p: Program, q: Program, tainted: set<Key>, boundaries: set<Key>, dangerous: set<Key>)
    requires SameProgram(p, q)
    ensures TaintClosed(p, tainted) <==> TaintClosed(q, tainted)
    ensures DangerClosed(p, tainted, boundaries, dangerous) <==> DangerClosed(q, tainted, boundaries, dangerous)
  {
    hide AuditOf;
    forall f: Function, d: set<Key>, t: set<Key>, b: set<Key> ensures AuditOf(p, f, d, t, b) == AuditOf(q, f, d, t, b) {
      SameAudit(p, q, f, d, t, b);
    }
  }

  lemma SameAudit(p: Program, q: Program, f: Function, d: set<Key>, t: set<Key>, b: set<Key>)
    requires p.rules == q.rules
    ensures AuditOf(p, f, d, t, b) == AuditOf(q, f, d, t, b)
  {
  }
}
