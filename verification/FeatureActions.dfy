// The rewrite rules on feature nodes: `=` actions, and the templates that test for what they establish.
module FeatureActions {
  import opened Prelude
  import opened FeatureGraph
  import opened FeaturePaths
  import opened FeatureNodes
  import opened Unification

  // The right-hand side of a rule line: a second path, a variable, the sign for "nothing", or a text.
  datatype RuleTarget = ToPath(path: Path) | ToVariable(name: string) | ToNothing | ToText(text: string)

  // ---------------------------------------------------------------- facts about texts and cleared keys

  // Writing a text into a node that has no keys keeps every path.
  lemma TextKeepsPaths(g: Graph<FeatureNode>, n: FeatureNode, val: string, f: FeatureNode, path: Path)
    requires n in g && (g[n].Features? ==> g[n].kv == map[]) && Target(g, f, path).Some?
    ensures Target(g[n := Text(Some(val))], f, path) == Target(g, f, path)
  {
    ExtendsKeepsPaths(g, g[n := Text(Some(val))], f, path);
  }

  // A path is gone once its last edge is, whatever other paths share its edges.
  lemma ClearedIsGone(g: Graph<FeatureNode>, f: FeatureNode, path: Path)
    requires path != []
    requires var q := Target(g, f, path[..|path| - 1]); q.Some? && q.value in g && g[q.value].Features?
    ensures Target(WithoutEdge(g, Target(g, f, path[..|path| - 1]).value, path[|path| - 1]), f, path) == None
  {
    var l := |path| - 1;
    var q := Target(g, f, path[..l]).value;
    var g' := WithoutEdge(g, q, path[l]);
    assert path == path[..l] + [path[l]];
    TargetAppend(g', f, path[..l], [path[l]]);
    if Target(g', f, path[..l]).Some? {
      ExtendsKeepsPaths(g', g, f, path[..l]);
    }
  }

  // ---------------------------------------------------------------- actions

  // What assigning does, by what is on the right: a second path, a node, a text, or a variable without a value.
  ghost predicate Assigned(g: Graph<FeatureNode>, f: FeatureNode, left: FeatureNode?, right: FeatureNode?,
                           rightVal: Option<string>, path: Path, targetPath: Option<Path>, tr: Trail<FeatureNode>,
                           o: Outcome, g': Graph<FeatureNode>)
    requires f in g
  {
    if targetPath.Some? then Equated(g, f, path, targetPath.value, tr, o, g')
    else if right != null then NodeAssigned(g, f, left, right, path, tr, o, g')
    else if rightVal.Some? then TextSet(g, left, rightVal.value, o, g')
    else NothingAssigned(g, f, left, path, tr, o, g')
  }

  ghost predicate NodeAssigned(g: Graph<FeatureNode>, f: FeatureNode, left: FeatureNode?, right: FeatureNode,
                               path: Path,
                               tr: Trail<FeatureNode>, o: Outcome, g': Graph<FeatureNode>) {
    if left == null then
      && (o.Threw? <==> Blocked(g, f, path))
      && if o.Threw? then g' == g else PathMade(g, f, path, right, tr.grownLeft, g')
    else
      left in g && right in g && (o.Threw? <==> !Mergeable(g, left, right)) && g' == Merged(g, left, right)
  }

  // A variable without a value is refused, but a missing path is made before that.
  ghost predicate NothingAssigned(g: Graph<FeatureNode>, f: FeatureNode, left: FeatureNode?, path: Path,
                                  tr: Trail<FeatureNode>, o: Outcome, g': Graph<FeatureNode>) {
    && o.Threw?
    && if left != null then g' == g
       else
         && tr.left !in g
         && var g1 := g[tr.left := Features(map[])];
         if Blocked(g1, f, path) then g' == g1 else PathMade(g1, f, path, tr.left, tr.grownLeft, g')
  }

  method DoActionEquals(f: FeatureNode, left0: FeatureNode?, right: FeatureNode?, rightVal: Option<string>,
                        path: Path, targetPath: Option<Path>, ghost w: NodeHeap)
    returns (o: Outcome, ghost tr: Trail<FeatureNode>)
    requires w.Valid() && f in w.graph && (left0 != null ==> left0 in w.graph) && (right != null ==> right in w.graph)
    requires Target(w.graph, f, path) == if left0 == null then None else Some(left0)
    requires targetPath.Some? ==> rightVal.None?
    requires targetPath.Some? ==> Target(w.graph, f, targetPath.value) == if right == null then None else Some(right)
    requires rightVal.Some? ==> left0 != null && right == null
    modifies w, w.graph.Keys
    ensures w.Valid()
    ensures Assigned(old(w.graph), f, left0, right, rightVal, path, targetPath, tr, o, w.graph)
  {
    tr := Trail(f, [], [], w.graph);
    var left: FeatureNode? := left0;
    if left == null && right == null {
      left := Create(w);
      ghost var made;
      o, made := f.MakePath(path, left, w);
      tr := Trail(left, made, [], w.graph);
      if o.Threw? {
        return;
      }
    }
    if right == null && rightVal.None? {
      if targetPath.None? {
        return Threw, tr;
      }
      ghost var made;
      o, made := f.MakePath(targetPath.value, left, w);
      tr := tr.(grownRight := made);
      return;
    }
    if right == null {
      assert w.Sound(left);
      if !left.IsEmpty() && !left.IsValued() {
        return Threw, tr;
      }
      o := left.ForceValue(rightVal.value, w);
      return;
    }
    if left == null {
      ghost var made;
      o, made := f.MakePath(path, right, w);
      tr := tr.(grownLeft := made);
      return;
    }
    o := left.MergeWith(right, w);
  }

  // No assignment leaves a node without its text, refused or not.
  lemma AssignedKeepsTexts(g: Graph<FeatureNode>, f: FeatureNode, left: FeatureNode?, right: FeatureNode?,
                           rightVal: Option<string>, path: Path, targetPath: Option<Path>, tr: Trail<FeatureNode>,
                           o: Outcome, g': Graph<FeatureNode>)
    requires f in g && NoBlankText(g) && Assigned(g, f, left, right, rightVal, path, targetPath, tr, o, g')
    ensures NoBlankText(g')
  {
    var g1 := g[tr.left := Features(map[])];
    forall from: Graph<FeatureNode>, to: Graph<FeatureNode>, p: Path, t: FeatureNode, nodes: seq<FeatureNode>
      | NoBlankText(from) && PathMade(from, f, p, t, nodes, to)
      ensures NoBlankText(to)
    {
      PathMadeKeepsTexts(from, f, p, t, nodes, to);
    }
  }

  // Setting a text is refused exactly when the node has features.
  ghost predicate TextSet(g: Graph<FeatureNode>, n: FeatureNode?, val: string, o: Outcome, g': Graph<FeatureNode>) {
    && n != null && n in g
    && (o.Threw? <==> g[n].Features? && g[n].kv != map[])
    && g' == if o.Threw? then g else g[n := Text(Some(val))]
  }

  method DoActionClear(f: FeatureNode, left: FeatureNode?, path: Path, ghost w: NodeHeap) returns (o: Outcome)
    requires w.Valid() && f in w.graph
    requires Target(w.graph, f, path) == if left == null then None else Some(left)
    modifies w, w.graph.Keys
    ensures w.Valid()
    ensures o.Threw? <==> path == []
    ensures o.Threw? ==> w.graph == old(w.graph)
    ensures o.Ok? ==> Target(w.graph, f, path) == None
    ensures o.Ok? && left == null ==> w.graph == old(w.graph)
    ensures o.Ok? && left != null ==> CanClear(old(w.graph), f, path) && w.graph == Cleared(old(w.graph), f, path)
  {
    if left == null {
      return Ok;
    }
    if path == [] {
      return Threw;
    }
    ghost var g := w.graph;
    var l := |path| - 1;
    assert path == path[..l] + [path[l]];
    TargetAppend(g, f, path[..l], [path[l]]);
    var leftParent := f.PathTarget(path[..l], w);
    o := leftParent.Set(path[l], null, w);
    ClearedIsGone(g, f, path);
  }

  ghost predicate CanClear(g: Graph<FeatureNode>, f: FeatureNode, path: Path) {
    path != [] && var q := Target(g, f, path[..|path| - 1]); q.Some? && q.value in g && g[q.value].Features?
  }

  // The graph without the last edge of the path.
  ghost function Cleared(g: Graph<FeatureNode>, f: FeatureNode, path: Path): Graph<FeatureNode>
    requires CanClear(g, f, path)
  {
    WithoutEdge(g, Target(g, f, path[..|path| - 1]).value, path[|path| - 1])
  }

  // The path leads to a node without features, or can be made to lead to one.
  ghost predicate CanTakeText(g: Graph<FeatureNode>, f: FeatureNode, path: Path) {
    match Target(g, f, path)
    case None => !Blocked(g, f, path)
    case Some(l) => l in g && (g[l].Features? ==> g[l].kv == map[])
  }

  // The path leads to a node that can be merged with this one, or can be made to lead to it.
  ghost predicate CanTakeNode(g: Graph<FeatureNode>, f: FeatureNode, path: Path, t: FeatureNode) {
    match Target(g, f, path)
    case None => !Blocked(g, f, path)
    case Some(l) => l in g && t in g && Mergeable(g, l, t)
  }

  // The node a path or a variable stands for, null if there is none.
  ghost function NodeAt(g: Graph<FeatureNode>, f: FeatureNode, path: Path): FeatureNode? {
    match Target(g, f, path) case None => null case Some(n) => n
  }

  // What an action `<path> = target` does, and what `<path> += target` does to a missing or empty node.  `made` is the
  // node made for a text.
  ghost predicate RuleDone(g: Graph<FeatureNode>, f: FeatureNode, path: Path, target: RuleTarget,
                           vars: map<string, FeatureNode>, tr: Trail<FeatureNode>, made: FeatureNode, o: Outcome,
                           g': Graph<FeatureNode>)
    requires f in g
  {
    var left := NodeAt(g, f, path);
    match target
    case ToPath(path2) => Equated(g, f, path, path2, tr, o, g')
    case ToVariable(name) =>
      if name in vars then NodeAssigned(g, f, left, vars[name], path, tr, o, g')
      else NothingAssigned(g, f, left, path, tr, o, g')
    case ToNothing =>
      && (o.Threw? <==> path == [])
      && if o.Ok? && left != null then CanClear(g, f, path) && g' == Cleared(g, f, path) else g' == g
    case ToText(text) =>
      if left != null then TextSet(g, left, text, o, g')
      else made !in g && NodeAssigned(g[made := Text(Some(text))], f, null, made, path, tr, o, g')
  }

  // What such a rule establishes, and when it is refused.
  lemma RuleEstablishes(g: Graph<FeatureNode>, f: FeatureNode, path: Path, target: RuleTarget,
                        vars: map<string, FeatureNode>, tr: Trail<FeatureNode>, made: FeatureNode, o: Outcome,
                        g': Graph<FeatureNode>)
    requires Closed(g) && f in g && vars.Values <= g.Keys && RuleDone(g, f, path, target, vars, tr, made, o, g')
    ensures target.ToPath? && o.Ok? ==> (Unified(g', f, path, target.path) <==> !LeftApart(g, f, path, target.path))
    ensures target.ToText? ==> (o.Threw? <==> !CanTakeText(g, f, path))
    ensures target.ToText? && o.Ok? ==> LeadsToText(g', f, path, target.text)
    ensures target.ToVariable? ==>
              (o.Threw? <==> target.name !in vars || !CanTakeNode(g, f, path, vars[target.name]))
    ensures target.ToVariable? && o.Ok? ==> target.name in vars && LedTo(g, f, path, vars[target.name], g')
    ensures target.ToNothing? && o.Ok? ==> Target(g', f, path) == None
  {
    var left := NodeAt(g, f, path);
    ResolvedFacts(g, f, path);
    match target
    case ToPath(path2) =>
      if o.Ok? {
        EqualsUnifies(g, f, path, path2, tr, g');
      }
    case ToVariable(name) =>
      if name in vars {
        assert vars[name] in vars.Values;
        if o.Ok? {
          LedThere(g, f, path, vars[name], tr.grownLeft, g');
        }
      }
    case ToNothing =>
      if o.Ok? && left != null {
        ClearedIsGone(g, f, path);
      }
    case ToText(text) =>
      if left == null {
        TextEstablished(g, f, path, text, tr, made, o, g');
      } else if o.Ok? {
        TextKeepsPaths(g, left, text, f, path);
      }
  }

  lemma TextEstablished(g: Graph<FeatureNode>, f: FeatureNode, path: Path, text: string, tr: Trail<FeatureNode>,
                        made: FeatureNode, o: Outcome, g': Graph<FeatureNode>)
    requires Closed(g) && f in g && Target(g, f, path) == None && made !in g
    requires NodeAssigned(g[made := Text(Some(text))], f, null, made, path, tr, o, g')
    ensures o.Threw? <==> Blocked(g, f, path)
    ensures o.Ok? ==> LeadsToText(g', f, path, text)
  {
    var g1 := g[made := Text(Some(text))];
    SameWalk(g, g1, f, path);
    ResolvedFacts(g, f, path);
    if o.Ok? {
      LedThere(g1, f, path, made, tr.grownLeft, g');
      TextGrown(g1, f, path, made, tr.grownLeft, g');
    }
  }

  // The path leads to a node with this text.
  ghost predicate LeadsToText(g: Graph<FeatureNode>, f: FeatureNode, path: Path, text: string) {
    var t := Target(g, f, path);
    t.Some? && t.value in g && g[t.value] == Text(Some(text))
  }

  // The path has been made to lead to a given node: by growing it, or by merging what it led to.  An empty
  // path is the node itself and stays where it is.
  ghost predicate LedTo(g: Graph<FeatureNode>, f: FeatureNode, path: Path, t: FeatureNode, g': Graph<FeatureNode>) {
    match Target(g, f, path)
    case None => Target(g', f, path) == Some(t)
    case Some(l) =>
      && l in g && t in g && Mergeable(g, l, t)
      && (path != [] ==> Target(g', f, path) == Some(if l == t then t else Survivor(g, l, t)))
  }

  lemma LedThere(g: Graph<FeatureNode>, f: FeatureNode, path: Path, t: FeatureNode, nodes: seq<FeatureNode>,
                 g': Graph<FeatureNode>)
    requires Closed(g) && f in g && t in g
    requires match Target(g, f, path)
             case None => PathMade(g, f, path, t, nodes, g')
             case Some(l) => l in g && Mergeable(g, l, t) && g' == Merged(g, l, t)
    ensures LedTo(g, f, path, t, g')
  {
    match Target(g, f, path)
    case None =>
      PathMadeLeads(g, f, path, t, nodes, g');
    case Some(l) =>
      if l != t {
        RootedPath(g, l, t, f, path);
      }
  }

  // Growing a path towards a text keeps the text.
  lemma TextGrown(g: Graph<FeatureNode>, f: FeatureNode, path: Path, t: FeatureNode, nodes: seq<FeatureNode>,
                  g': Graph<FeatureNode>)
    requires Closed(g) && f in g && t in g && g[t].Text? && PathMade(g, f, path, t, nodes, g')
    ensures t in g' && g'[t] == g[t]
  {
    var s := Resolved(g, f, path);
    if s < |path| {
      GrownNodeByNode(g, StopNode(g, f, path), path[s..], nodes);
    }
  }

  // ---------------------------------------------------------------- templates

  // One line of a template; a negated line stands for `!=`.
  datatype Line = Line(path: Path, target: RuleTarget, negated: bool)

  // Whether a line's pattern holds.  How a text is compared is a parameter.
  ghost predicate Holds(g: Graph<FeatureNode>, f: FeatureNode, line: Line, alike: (string, string) -> bool) {
    var t := Target(g, f, line.path);
    match line.target
    case ToPath(path2) => Unified(g, f, line.path, path2)
    case ToVariable(_) => t.Some?
    case ToNothing => t.Some? && t.value in g ==> IsEmptyBody(g[t.value]) || g[t.value] == Text(Some(""))
    case ToText(pattern) =>
      && t.Some? && t.value in g && g[t.value].Text? && g[t.value].text.Some?
      && alike(pattern, g[t.value].text.value)
  }

  // The variables that the lines bind, the later ones on top.
  ghost function Bound(g: Graph<FeatureNode>, f: FeatureNode, lines: seq<Line>): map<string, FeatureNode> {
    if lines == [] then map[]
    else
      var line := lines[|lines| - 1];
      var vars := Bound(g, f, lines[..|lines| - 1]);
      var t := Target(g, f, line.path);
      if line.target.ToVariable? && t.Some? then vars[line.target.name := t.value] else vars
  }

  class FeatureTemplate {
    var lines: seq<Line>
    var vars: map<string, FeatureNode>

    constructor (lines: seq<Line>)
      ensures this.lines == lines && vars == map[]
    {
      this.lines, vars := lines, map[];
    }

    method MatchLine(f: FeatureNode, line: Line, alike: (string, string) -> bool,
                     ghost w: NodeHeap) returns (matched: bool)
      requires w.Valid() && f in w.graph && NoBlankText(w.graph)
      modifies this`vars
      ensures matched <==> Holds(w.graph, f, line, alike)
      ensures vars == if line.target.ToVariable? && matched
                      then old(vars)[line.target.name := Target(w.graph, f, line.path).value] else old(vars)
    {
      var fTarget := f.PathTarget(line.path, w);
      if fTarget == null {
        return line.target.ToNothing?;
      }
      assert w.Sound(fTarget);
      match line.target
      case ToPath(path2) =>
        var fTarget2 := f.PathTarget(path2, w);
        matched := fTarget == fTarget2;
      case ToNothing =>
        matched := fTarget.IsEmpty() || (fTarget.IsValued() && fTarget.value == Some(""));
      case ToVariable(name) =>
        vars := vars[name := fTarget];
        matched := true;
      case ToText(pattern) =>
        matched := fTarget.IsValued() && alike(pattern, fTarget.value.value);
    }

    // Tests the lines in order and stops at the first that fails; on failure no variable stays bound.
    method Match(f: FeatureNode, alike: (string, string) -> bool, ghost w: NodeHeap) returns (matched: bool)
      requires w.Valid() && f in w.graph && NoBlankText(w.graph)
      modifies this`vars
      ensures matched <==> forall i :: 0 <= i < |lines| ==> (Holds(w.graph, f, lines[i], alike) <==> !lines[i].negated)
      ensures vars == if matched then Bound(w.graph, f, lines) else map[]
    {
      matched := true;
      vars := map[];
      var i := 0;
      while matched && i < |lines|
        invariant i <= |lines|
        invariant matched ==> forall j :: 0 <= j < i ==> (Holds(w.graph, f, lines[j], alike) <==> !lines[j].negated)
        invariant matched ==> vars == Bound(w.graph, f, lines[..i])
        invariant !matched ==> 0 < i && (Holds(w.graph, f, lines[i - 1], alike) <==> lines[i - 1].negated)
      {
        var line := lines[i];
        assert lines[..i + 1][..i] == lines[..i];
        var m := MatchLine(f, line, alike, w);
        matched := if line.negated then !m else m;
        i := i + 1;
      }
      assert lines[..|lines|] == lines;
      if !matched {
        vars := map[];
      }
    }
  }

  // After a path-pair action that was not left apart, a template with the same line matches.
  lemma ActionThenTemplate(g: Graph<FeatureNode>, f: FeatureNode, left: Path, right: Path, tr: Trail<FeatureNode>,
                           g': Graph<FeatureNode>, alike: (string, string) -> bool)
    requires Closed(g) && f in g && Equated(g, f, left, right, tr, Ok, g')
    ensures Holds(g', f, Line(left, ToPath(right), false), alike) <==> !LeftApart(g, f, left, right)
  {
    EqualsUnifies(g, f, left, right, tr, g');
  }

  // A template line asks for what an action of the same shape establishes: after a text, a variable or nothing has been
  // assigned, the line holds, and it binds its variable to the node that the path was led to.
  lemma RuleThenTemplate(g: Graph<FeatureNode>, f: FeatureNode, path: Path, target: RuleTarget,
                         vars: map<string, FeatureNode>, tr: Trail<FeatureNode>, made: FeatureNode,
                         g': Graph<FeatureNode>, alike: (string, string) -> bool)
    requires Closed(g) && f in g && vars.Values <= g.Keys && RuleDone(g, f, path, target, vars, tr, made, Ok, g')
    requires !target.ToPath? && (target.ToText? ==> alike(target.text, target.text))
    ensures Holds(g', f, Line(path, target, false), alike)
    ensures target.ToVariable? ==>
              target.name in vars && LedTo(g, f, path, vars[target.name], g') && Target(g', f, path).Some? &&
              Bound(g', f, [Line(path, target, false)]) == map[target.name := Target(g', f, path).value]
  {
    RuleEstablishes(g, f, path, target, vars, tr, made, Ok, g');
    var line := Line(path, target, false);
    assert [line][..0] == [];
  }

  // "Nothing" is found where the path leads nowhere, or to a node without a path on and without a text other than the
  // empty one.
  lemma NothingExactly(g: Graph<FeatureNode>, f: FeatureNode, line: Line, alike: (string, string) -> bool)
    requires Closed(g) && f in g && line.target.ToNothing?
    ensures Holds(g, f, line, alike) <==>
            && (forall k: Key :: Target(g, f, line.path + [k]) == None)
            && forall text: string :: LeadsToText(g, f, line.path, text) ==> text == ""
  {
    var t := Target(g, f, line.path);
    forall k: Key
      ensures Target(g, f, line.path + [k]) == if t.None? then None else Step(g, t.value, k)
    {
      TargetAppend(g, f, line.path, [k]);
      if t.Some? {
        StepIsTarget(g, t.value, k);
      }
    }
    if t.Some? {
      ResolvedFacts(g, f, line.path);
      assert line.path[..|line.path|] == line.path;
      if g[t.value].Text? && g[t.value].text.Some? {
        assert LeadsToText(g, f, line.path, g[t.value].text.value);
      }
      if g[t.value].Features? && g[t.value].kv != map[] {
        var k :| k in g[t.value].kv;
        assert Step(g, t.value, k).Some?;
      }
    }
  }

  lemma StepIsTarget(g: Graph<FeatureNode>, n: FeatureNode, k: Key)
    ensures Target(g, n, [k]) == Step(g, n, k)
  {
    assert [k][1..] == [];
  }

  ghost predicate Binds(g: Graph<FeatureNode>, f: FeatureNode, line: Line, name: string) {
    line.target == ToVariable(name) && Target(g, f, line.path).Some?
  }

  // A variable is bound to what the last of its lines has found, and not at all if none of them has found a node.
  lemma {:induction false} BoundIsLast(g: Graph<FeatureNode>, f: FeatureNode, lines: seq<Line>, name: string)
    returns (i: nat)
    ensures if i < |lines| then
              Binds(g, f, lines[i], name) && name in Bound(g, f, lines) &&
              Target(g, f, lines[i].path) == Some(Bound(g, f, lines)[name])
            else name !in Bound(g, f, lines)
    ensures forall j :: 0 <= j < |lines| && (i < j || i >= |lines|) ==> !Binds(g, f, lines[j], name)
  {
    if lines == [] {
      return 0;
    }
    var l := |lines| - 1;
    if Binds(g, f, lines[l], name) {
      return l;
    }
    i := BoundIsLast(g, f, lines[..l], name);
    assert forall j :: 0 <= j < l ==> lines[..l][j] == lines[j];
    i := if i < l then i else |lines|;
  }
}
