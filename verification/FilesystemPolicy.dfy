/**
 The permission ladder for file access: deny rules, ask rules, the workspace, allow rules, and asking as
 the default (internal/core/permission/filesystem_policy.go, request.go, grant.go).
 */
module FilesystemPolicy {
  import opened Wrappers
  import opened Grouping
  import opened PathMatch

  datatype Decision = Deny | Ask | Allow

  datatype Rule = Rule(decision: Decision, baseDir: string, pattern: string)

  datatype Access = Read | Write | Unsupported

  datatype Request = Request(toolName: string, path: string, workingDir: string, access: Access)

  datatype Evaluation = Evaluation(decision: Decision, rule: Option<Rule>, message: string)

  /**
   What the host's libraries do with paths; none of it is interpreted. `expand(path, base)` makes a path
   absolute, `rel(root, target)` names the target from the root; both may fail.
   */
  datatype Host = Host(
    glob: Glob,
    trim: string -> string,
    clean: string -> string,
    toSlash: string -> string,
    join: (string, string) -> string,
    expand: (string, string) -> Option<string>,
    rel: (string, string) -> Option<string>
  )

  // ---------------------------------------------------------------- one path against one rule

  predicate PathWithinRoot(h: Host, root: string, target: string) {
    match h.rel(root, target)
    case None => false
    case Some(relative) =>
      if relative == "." then true
      else if relative == ".." then false
      else !("../" <= relative)
  }

  function TrimDotSlash(s: string): string {
    if "./" <= s then s[2..] else s
  }

  function SplitSlashes(s: string): (parts: seq<string>)
    ensures parts != []
  {
    if s == [] then [""]
    else
      var rest := SplitSlashes(s[1..]);
      if s[0] == '/' then [""] + rest else [[s[0]] + rest[0]] + rest[1..]
  }

  /** The segments of a cleaned path; the root itself has none. */
  function Segments(h: Host, value: string): seq<string> {
    var normalized := TrimDotSlash(h.clean(value));
    if normalized == "." || normalized == "" then [] else SplitSlashes(normalized)
  }

  predicate MatchPermissionPattern(h: Host, relative: string, pattern: string) {
    pattern != "" && Match(h.glob, Segments(h, relative), Segments(h, pattern))
  }

  function RuleRoot(h: Host, workingDir: string, rule: Rule): Option<string> {
    if h.trim(rule.baseDir) != "" then h.expand(rule.baseDir, workingDir) else Some(workingDir)
  }

  /** Whether a rule covers a path; None when that cannot be decided. */
  function MatchRule(h: Host, path: string, workingDir: string, rule: Rule): Option<bool> {
    match RuleRoot(h, workingDir, rule)
    case None => None
    case Some(root) =>
      if !PathWithinRoot(h, root, path) then Some(false)
      else Some(MatchPermissionPattern(h, h.toSlash(h.rel(root, path).value), h.toSlash(h.trim(rule.pattern))))
  }

  /** Whether a rule covers a glob query that starts at `path`: the query itself is matched like a path. */
  function MatchGlobRule(h: Host, path: string, workingDir: string, query: string, rule: Rule): Option<bool> {
    match RuleRoot(h, workingDir, rule)
    case None => None
    case Some(root) =>
      if !PathWithinRoot(h, root, path) then Some(false)
      else if h.toSlash(h.trim(query)) == "" then Some(false)
      else Some(MatchPermissionPattern(h, Candidate(h, root, path, query), h.toSlash(h.trim(rule.pattern))))
  }

  /** The query, as seen from the root of a rule. */
  function Candidate(h: Host, root: string, path: string, query: string): string
    requires PathWithinRoot(h, root, path)
  {
    var relative, normalized := h.rel(root, path).value, h.toSlash(h.trim(query));
    if relative != "." && relative != "" then h.join(h.toSlash(relative), normalized) else normalized
  }

  /**
   A rule on a glob query against the same rule on a path that the query lists: both are decided alike if the query
   is that path; and a rule that names just that path, with plain names, covers the path but no other query.
   */
  lemma QueryAgainstListed(h: Host, path: string, workingDir: string, query: string, target: string, rule: Rule,
        root: string)
    requires RuleRoot(h, workingDir, rule) == Some(root)
    requires PathWithinRoot(h, root, path) && PathWithinRoot(h, root, target)
    requires h.toSlash(h.trim(query)) != "" && h.toSlash(h.trim(rule.pattern)) != ""
    ensures var listed := Segments(h, h.toSlash(h.rel(root, target).value));
            var asked := Segments(h, Candidate(h, root, path, query));
            var onPath := MatchRule(h, target, workingDir, rule);
            var onQuery := MatchGlobRule(h, path, workingDir, query, rule);
            && (asked == listed ==> onQuery == onPath)
            && (LiteralPath(h.glob, listed) && Segments(h, h.toSlash(h.trim(rule.pattern))) == listed ==>
                  onPath == Some(true) && (onQuery == Some(true) <==> asked == listed))
  {
    hide Match, LiteralPath;
    var listed := Segments(h, h.toSlash(h.rel(root, target).value));
    if LiteralPath(h.glob, listed) {
      LiteralMatch(h.glob, listed, listed);
      LiteralMatch(h.glob, Segments(h, Candidate(h, root, path, query)), listed);
    }
  }

  /** A rule whose pattern is `pattern`, then `**`, covers everything at or below what `pattern` matches. */
  lemma RuleCoversTree(h: Host, path: string, workingDir: string, rule: Rule, root: string, pattern: seq<string>,
        k: nat)
    requires RuleRoot(h, workingDir, rule) == Some(root) && PathWithinRoot(h, root, path)
    requires h.toSlash(h.trim(rule.pattern)) != ""
    requires Segments(h, h.toSlash(h.trim(rule.pattern))) == pattern + [ANY_RUN]
    requires var segments := Segments(h, h.toSlash(h.rel(root, path).value));
             k <= |segments| && Match(h.glob, segments[..k], pattern)
    ensures MatchRule(h, path, workingDir, rule) == Some(true)
  {
    TrailingRunCoversTree(h.glob, Segments(h, h.toSlash(h.rel(root, path).value)), pattern);
  }

  // ---------------------------------------------------------------- what lies inside, and what is covered

  /** The target can be named from the root, and the first segment of that name does not lead out of it. */
  ghost predicate Inside(h: Host, root: string, target: string) {
    h.rel(root, target).Some? && SplitSlashes(h.rel(root, target).value)[0] != ".."
  }

  /** These names with a slash between each two. */
  ghost function JoinSlashes(parts: seq<string>): string
    requires parts != []
  {
    if |parts| == 1 then parts[0] else parts[0] + "/" + JoinSlashes(parts[1..])
  }

  ghost predicate NoSlashes(parts: seq<string>) {
    forall i :: 0 <= i < |parts| ==> '/' !in parts[i]
  }

  lemma {:induction false} SplitRejoins(s: string)
    ensures NoSlashes(SplitSlashes(s)) && JoinSlashes(SplitSlashes(s)) == s
  {
    if s != [] {
      SplitRejoins(s[1..]);
      assert s == [s[0]] + s[1..];
      assert SplitSlashes(s)[1..] == if s[0] == '/' then SplitSlashes(s[1..]) else SplitSlashes(s[1..])[1..];
    }
  }

  lemma {:induction false} SplitFirst(name: string, rest: string)
    requires '/' !in name
    ensures SplitSlashes(name) == [name]
    ensures SplitSlashes(name + "/" + rest) == [name] + SplitSlashes(rest)
  {
    var s := name + "/" + rest;
    if name == [] {
      assert s[1..] == rest;
    } else {
      SplitFirst(name[1..], rest);
      assert s[1..] == name[1..] + "/" + rest;
      assert [name[0]] + name[1..] == name;
    }
  }

  /** A path splits into just those names without slashes that make it up. */
  lemma {:induction false} SplitIff(s: string, parts: seq<string>)
    requires parts != []
    ensures SplitSlashes(s) == parts <==> NoSlashes(parts) && JoinSlashes(parts) == s
    decreases |parts|
  {
    SplitRejoins(s);
    if NoSlashes(parts) && JoinSlashes(parts) == s {
      if |parts| == 1 {
        SplitFirst(parts[0], "");
      } else {
        SplitFirst(parts[0], JoinSlashes(parts[1..]));
        SplitIff(JoinSlashes(parts[1..]), parts[1..]);
      }
    }
  }

  /** A path lies within a root exactly when its name from there does not begin by leading out. */
  lemma WithinIff(h: Host, root: string, target: string)
    ensures PathWithinRoot(h, root, target) <==> Inside(h, root, target)
  {
    if h.rel(root, target).Some? {
      var relative := h.rel(root, target).value;
      SplitRejoins(relative);
      SplitFirst("..", "");
      if "../" <= relative {
        SplitFirst("..", relative[3..]);
        assert relative == ".." + "/" + relative[3..];
      }
    }
  }

  /** The names on the cleaned path, without a leading `./`; there are none on the empty path and on `.`. */
  ghost predicate NamesAre(h: Host, value: string, names: seq<string>) {
    var text := h.clean(value);
    if names == [] then text == "" || text == "." || text == "./" || text == "./."
    else
      && NoSlashes(names) && names != [""] && names != ["."]
      && (text == "./" + JoinSlashes(names) || (text == JoinSlashes(names) && names[0] != "."))
  }

  lemma DotNames(text: string)
    ensures SplitSlashes(".") == ["."] && SplitSlashes("") == [""]
    ensures "./" <= text <==> |SplitSlashes(text)| > 1 && SplitSlashes(text)[0] == "."
  {
    SplitFirst(".", "");
    SplitFirst("", "");
    SplitRejoins(text);
    if "./" <= text {
      assert text == "." + "/" + text[2..];
      SplitFirst(".", text[2..]);
    }
  }

  lemma SegmentsIff(h: Host, value: string, names: seq<string>)
    ensures Segments(h, value) == names <==> NamesAre(h, value, names)
  {
    var text := h.clean(value);
    DotNames(text);
    hide SplitSlashes;
    if names != [] {
      SplitIff(TrimDotSlash(text), names);
      SplitIff(text, names);
    }
  }

  /** The rule names this root, or none and then it is the working directory. */
  ghost predicate RootIs(h: Host, workingDir: string, rule: Rule, root: string) {
    if h.trim(rule.baseDir) == "" then root == workingDir else h.expand(rule.baseDir, workingDir) == Some(root)
  }

  /** The names on `candidate` are made of runs that the segments of the rule's pattern accept, in order. */
  ghost predicate Fits(h: Host, candidate: string, rule: Rule) {
    var pattern := h.toSlash(h.trim(rule.pattern));
    && pattern != ""
    && exists runs :: RunsFit(h.glob, Segments(h, pattern), runs) && Flatten(runs) == Segments(h, candidate)
  }

  /** The path lies inside the root of the rule, and its name from there fits the pattern. */
  ghost predicate Covers(h: Host, path: string, workingDir: string, rule: Rule) {
    exists root ::
      RootIs(h, workingDir, rule, root) && Inside(h, root, path) && Fits(h, h.toSlash(h.rel(root, path).value), rule)
  }

  /** The same for a query that is not empty, put behind the name of the path from the root. */
  ghost predicate CoversQuery(h: Host, path: string, workingDir: string, query: string, rule: Rule) {
    var asked := h.toSlash(h.trim(query));
    && asked != ""
    && exists root ::
         && RootIs(h, workingDir, rule, root) && Inside(h, root, path)
         && var relative := h.rel(root, path).value;
            Fits(h, if relative == "." || relative == "" then asked else h.join(h.toSlash(relative), asked), rule)
  }

  lemma FitsIff(h: Host, candidate: string, rule: Rule)
    ensures MatchPermissionPattern(h, candidate, h.toSlash(h.trim(rule.pattern))) <==> Fits(h, candidate, rule)
  {
    hide Match, RunsFit, Segments;
    MatchIffRuns(h.glob, Segments(h, candidate), Segments(h, h.toSlash(h.trim(rule.pattern))));
  }

  /** A rule covers a path only from inside its own root, and then exactly when the path fits its pattern. */
  lemma MatchRuleIff(h: Host, path: string, workingDir: string, rule: Rule)
    ensures MatchRule(h, path, workingDir, rule) == Some(true) <==> Covers(h, path, workingDir, rule)
    ensures MatchRule(h, path, workingDir, rule) == None <==> forall root :: !RootIs(h, workingDir, rule, root)
  {
    hide MatchPermissionPattern, Fits, PathWithinRoot, SplitSlashes;
    match RuleRoot(h, workingDir, rule)
    case None =>
    case Some(root) =>
      assert RootIs(h, workingDir, rule, root);
      WithinIff(h, root, path);
      if PathWithinRoot(h, root, path) {
        FitsIff(h, h.toSlash(h.rel(root, path).value), rule);
      }
  }

  lemma MatchGlobRuleIff(h: Host, path: string, workingDir: string, query: string, rule: Rule)
    ensures MatchGlobRule(h, path, workingDir, query, rule) == Some(true) <==>
            CoversQuery(h, path, workingDir, query, rule)
    ensures MatchGlobRule(h, path, workingDir, query, rule) == None <==>
            forall root :: !RootIs(h, workingDir, rule, root)
  {
    hide MatchPermissionPattern, Fits, PathWithinRoot, SplitSlashes;
    match RuleRoot(h, workingDir, rule)
    case None =>
    case Some(root) =>
      assert RootIs(h, workingDir, rule, root);
      WithinIff(h, root, path);
      if PathWithinRoot(h, root, path) {
        FitsIff(h, Candidate(h, root, path, query), rule);
      }
  }

  /** A rule never covers a path outside its own root, and no query that starts there. */
  lemma RuleStaysInItsRoot(h: Host, path: string, workingDir: string, query: string, rule: Rule, root: string)
    requires RootIs(h, workingDir, rule, root) && !Inside(h, root, path)
    ensures MatchRule(h, path, workingDir, rule) == Some(false)
    ensures MatchGlobRule(h, path, workingDir, query, rule) == Some(false)
  {
    hide MatchPermissionPattern, PathWithinRoot, SplitSlashes;
    WithinIff(h, root, path);
  }

  // ---------------------------------------------------------------- the ladder

  /** Some rule with this decision covers the access. */
  ghost predicate Hit(rules: seq<Rule>, decision: Decision, covers: Rule -> Option<bool>) {
    exists r :: r in rules && r.decision == decision && covers(r) == Some(true)
  }

  /** The i-th rule is the first one with this decision that covers the access. */
  ghost predicate FirstHit(rules: seq<Rule>, decision: Decision, covers: Rule -> Option<bool>, i: nat) {
    && i < |rules| && rules[i].decision == decision && covers(rules[i]) == Some(true)
    && !Hit(rules[..i], decision, covers)
  }

  /** What is decided. `open` says that the path may be read without any rule. */
  ghost function Ruling(rules: seq<Rule>, covers: Rule -> Option<bool>, open: bool): Decision {
    if Hit(rules, Deny, covers) then Deny
    else if Hit(rules, Ask, covers) then Ask
    else if open || Hit(rules, Allow, covers) then Allow
    else Ask
  }

  /** The decision, and the first rule that makes it unless the workspace or the default does. */
  ghost predicate Decides(e: Evaluation, rules: seq<Rule>, covers: Rule -> Option<bool>, open: bool) {
    && e.decision == Ruling(rules, covers, open)
    && (e.rule == None <==>
          !Hit(rules, Deny, covers) && !Hit(rules, Ask, covers) && (open || !Hit(rules, Allow, covers)))
    && (e.rule.Some? ==> exists i: nat :: FirstHit(rules, e.decision, covers, i) && rules[i] == e.rule.value)
  }

  lemma HitSnoc(rules: seq<Rule>, r: Rule, decision: Decision, covers: Rule -> Option<bool>)
    ensures Hit(rules + [r], decision, covers) <==>
            Hit(rules, decision, covers) || (r.decision == decision && covers(r) == Some(true))
  {
    if Hit(rules, decision, covers) {
      var x :| x in rules && x.decision == decision && covers(x) == Some(true);
      assert x in rules + [r];
    }
    if r.decision == decision && covers(r) == Some(true) {
      assert r in rules + [r];
    }
  }

  /** Only which rules there are matters for the decision, not their order or number. */
  lemma OrderDoesNotMatter(rules: seq<Rule>, others: seq<Rule>, covers: Rule -> Option<bool>, open: bool)
    requires forall r :: r in rules <==> r in others
    ensures Ruling(rules, covers, open) == Ruling(others, covers, open)
  {
    assert forall d :: Hit(rules, d, covers) == Hit(others, d, covers);
  }

  /**
   What one more rule does, wherever it is put: nothing unless it covers the access; then a deny rule
   denies, an ask rule asks unless a rule denies, and an allow rule allows unless a rule denies or asks.
   */
  lemma OneMoreRule(before: seq<Rule>, r: Rule, after: seq<Rule>, covers: Rule -> Option<bool>, open: bool)
    ensures var was := Ruling(before + after, covers, open);
            Ruling(before + [r] + after, covers, open) ==
            if covers(r) != Some(true) then was
            else match r.decision
                 case Deny => Deny
                 case Ask => if was == Deny then Deny else Ask
                 case Allow =>
                   if Hit(before + after, Deny, covers) || Hit(before + after, Ask, covers) then was else Allow
  {
    var rules := before + after;
    OrderDoesNotMatter(before + [r] + after, rules + [r], covers, open);
    HitSnoc(rules, r, Deny, covers);
    HitSnoc(rules, r, Ask, covers);
    HitSnoc(rules, r, Allow, covers);
  }

  /** Opening a path to reading turns asking into allowing when no rule asks, and changes nothing else. */
  lemma OpeningOnlyAllows(rules: seq<Rule>, covers: Rule -> Option<bool>)
    ensures Ruling(rules, covers, false) != Ask ==> Ruling(rules, covers, true) == Ruling(rules, covers, false)
    ensures Ruling(rules, covers, false) == Ask ==>
              Ruling(rules, covers, true) == if Hit(rules, Ask, covers) then Ask else Allow
  {
  }

  // ---------------------------------------------------------------- whole requests

  predicate ValidRequest(req: Request) {
    req.toolName != "" && req.path != "" && req.access != Unsupported
  }

  function NormalizeRequestPath(h: Host, path: string, workingDir: string): Option<(string, string)> {
    match h.expand(workingDir, "")
    case None => None
    case Some(dir) =>
      match h.expand(path, dir)
      case None => None
      case Some(p) => Some((p, dir))
  }

  ghost predicate OpenToRead(h: Host, roots: seq<string>, workingDir: string, path: string) {
    PathWithinRoot(h, workingDir, path) || exists r :: r in roots && PathWithinRoot(h, r, path)
  }

  /** A read inside this root that no rule asks about. */
  ghost predicate OpenedBy(h: Host, readRules: seq<Rule>, root: string, req: Request) {
    && req.access == Read
    && match NormalizeRequestPath(h, req.path, req.workingDir)
       case None => false
       case Some(p) => PathWithinRoot(h, root, p.0) && !Hit(readRules, Ask, r => MatchRule(h, p.0, p.1, r))
  }

  /** The decision on a request; a bad request or path is denied, and a grant beats every rule. */
  ghost function RequestRuling(h: Host, readRules: seq<Rule>, writeRules: seq<Rule>, roots: seq<string>,
                               grants: seq<Request>, req: Request): Decision {
    if !ValidRequest(req) then Deny
    else if req in grants then Allow
    else
      match NormalizeRequestPath(h, req.path, req.workingDir)
      case None => Deny
      case Some(p) =>
        var covers := r => MatchRule(h, p.0, p.1, r);
        if req.access == Read then Ruling(readRules, covers, OpenToRead(h, roots, p.1, p.0))
        else Ruling(writeRules, covers, false)
  }

  /** The absolute path of the request, and the working directory in which it is taken. */
  ghost predicate PathsAre(h: Host, req: Request, path: string, workingDir: string) {
    h.expand(req.workingDir, "") == Some(workingDir) && h.expand(req.path, workingDir) == Some(path)
  }

  /** Some rule with this decision covers the path, or the query that starts there. */
  ghost predicate Ruled(h: Host, rules: seq<Rule>, decision: Decision, path: string, workingDir: string,
        query: Option<string>) {
    exists r :: r in rules && r.decision == decision &&
      match query
      case None => Covers(h, path, workingDir, r)
      case Some(q) => CoversQuery(h, path, workingDir, q, r)
  }

  ghost predicate InWorkspace(h: Host, roots: seq<string>, workingDir: string, path: string) {
    Inside(h, workingDir, path) || exists root :: root in roots && Inside(h, root, path)
  }

  ghost predicate Complete(req: Request) {
    req.toolName != "" && req.path != "" && (req.access == Read || req.access == Write)
  }

  /** A request that is not complete, or ungranted and without a path or with a deny rule that covers it. */
  ghost predicate MustDeny(h: Host, rules: seq<Rule>, grants: seq<Request>, req: Request, query: Option<string>) {
    !Complete(req) ||
    (req !in grants &&
     forall path, dir :: PathsAre(h, req, path, dir) ==> Ruled(h, rules, Deny, path, dir, query))
  }

  /**
   A complete request that is granted, or that no rule denies or asks about and that is a read in the
   workspace or has an allow rule that covers it.
   */
  ghost predicate MayAllow(h: Host, rules: seq<Rule>, roots: seq<string>, grants: seq<Request>, req: Request,
        query: Option<string>) {
    && Complete(req)
    && (req in grants ||
        exists path, dir ::
          && PathsAre(h, req, path, dir)
          && !Ruled(h, rules, Deny, path, dir, query) && !Ruled(h, rules, Ask, path, dir, query)
          && ((req.access == Read && InWorkspace(h, roots, dir, path)) ||
              Ruled(h, rules, Allow, path, dir, query)))
  }

  lemma HitIff(h: Host, rules: seq<Rule>, decision: Decision, path: string, workingDir: string, query: string)
    ensures Hit(rules, decision, r => MatchRule(h, path, workingDir, r)) <==>
            Ruled(h, rules, decision, path, workingDir, None)
    ensures Hit(rules, decision, r => MatchGlobRule(h, path, workingDir, query, r)) <==>
            Ruled(h, rules, decision, path, workingDir, Some(query))
  {
    hide Covers, CoversQuery, MatchRule, MatchGlobRule;
    forall r
      ensures MatchRule(h, path, workingDir, r) == Some(true) <==> Covers(h, path, workingDir, r)
      ensures MatchGlobRule(h, path, workingDir, query, r) == Some(true) <==>
              CoversQuery(h, path, workingDir, query, r)
    {
      MatchRuleIff(h, path, workingDir, r);
      MatchGlobRuleIff(h, path, workingDir, query, r);
    }
  }

  lemma OpenIff(h: Host, roots: seq<string>, workingDir: string, path: string)
    ensures OpenToRead(h, roots, workingDir, path) <==> InWorkspace(h, roots, workingDir, path)
  {
    hide PathWithinRoot, Inside;
    forall root
      ensures PathWithinRoot(h, root, path) <==> Inside(h, root, path)
    {
      WithinIff(h, root, path);
    }
  }

  /** Which requests are denied and which are allowed; the others are asked about. */
  lemma RequestIff(h: Host, readRules: seq<Rule>, writeRules: seq<Rule>, roots: seq<string>, grants: seq<Request>,
        req: Request)
    ensures var decision := RequestRuling(h, readRules, writeRules, roots, grants, req);
            var rules := if req.access == Read then readRules else writeRules;
            && (decision == Deny <==> MustDeny(h, rules, grants, req, None))
            && (decision == Allow <==> MayAllow(h, rules, roots, grants, req, None))
  {
    hide Ruled, Hit, MatchRule, MatchGlobRule, OpenToRead, InWorkspace;
    var rules := if req.access == Read then readRules else writeRules;
    match NormalizeRequestPath(h, req.path, req.workingDir)
    case None =>
    case Some(p) =>
      assert PathsAre(h, req, p.0, p.1);
      OpenIff(h, roots, p.1, p.0);
      HitIff(h, rules, Deny, p.0, p.1, "");
      HitIff(h, rules, Ask, p.0, p.1, "");
      HitIff(h, rules, Allow, p.0, p.1, "");
  }

  /** The same for a glob query. */
  lemma QueryIff(h: Host, rules: seq<Rule>, roots: seq<string>, grants: seq<Request>, req: Request, query: string,
        path: string, dir: string)
    requires ValidRequest(req) && req.access == Read && req !in grants
    requires NormalizeRequestPath(h, req.path, req.workingDir) == Some((path, dir))
    ensures var decision := Ruling(rules, r => MatchGlobRule(h, path, dir, query, r), OpenToRead(h, roots, dir, path));
            && (decision == Deny <==> MustDeny(h, rules, grants, req, Some(query)))
            && (decision == Allow <==> MayAllow(h, rules, roots, grants, req, Some(query)))
  {
    hide Ruled, Hit, MatchRule, MatchGlobRule, OpenToRead, InWorkspace;
    assert PathsAre(h, req, path, dir);
    OpenIff(h, roots, dir, path);
    HitIff(h, rules, Deny, path, dir, query);
    HitIff(h, rules, Ask, path, dir, query);
    HitIff(h, rules, Allow, path, dir, query);
  }

  /**
   An ungranted read outside the working directory and every added root is never allowed unless an allow rule,
   from a root of its own that the path lies inside, covers it.
   */
  lemma OutsideNeedsRule(h: Host, readRules: seq<Rule>, writeRules: seq<Rule>, roots: seq<string>,
        grants: seq<Request>, req: Request, path: string, dir: string)
    requires req.access == Read && req !in grants && PathsAre(h, req, path, dir)
    requires !Inside(h, dir, path) && forall root :: root in roots ==> !Inside(h, root, path)
    requires RequestRuling(h, readRules, writeRules, roots, grants, req) == Allow
    ensures exists r, root ::
              && r in readRules && r.decision == Allow
              && RootIs(h, dir, r, root) && Inside(h, root, path) && Fits(h, h.toSlash(h.rel(root, path).value), r)
  {
    hide RequestRuling, Fits, RootIs;
    RequestIff(h, readRules, writeRules, roots, grants, req);
    assert Ruled(h, readRules, Allow, path, dir, None);
  }

  /**
   Which rule is reported for a path: the first one with the decision that covers it; none when no rule denies or
   asks and the path is open to reading or no rule allows it.
   */
  lemma ReportedRule(h: Host, e: Evaluation, rules: seq<Rule>, path: string, dir: string, open: bool)
    requires Decides(e, rules, r => MatchRule(h, path, dir, r), open)
    ensures match e.rule
            case None =>
              && !Ruled(h, rules, Deny, path, dir, None) && !Ruled(h, rules, Ask, path, dir, None)
              && (open || !Ruled(h, rules, Allow, path, dir, None))
            case Some(rule) =>
              exists i :: 0 <= i < |rules| && rules[i] == rule && rule.decision == e.decision
                          && Covers(h, path, dir, rule) && !Ruled(h, rules[..i], e.decision, path, dir, None)
  {
    hide Ruled, Covers, MatchRule, Hit;
    var covers := (r: Rule) => MatchRule(h, path, dir, r);
    HitIff(h, rules, Deny, path, dir, "");
    HitIff(h, rules, Ask, path, dir, "");
    HitIff(h, rules, Allow, path, dir, "");
    if e.rule.Some? {
      var i: nat :| FirstHit(rules, e.decision, covers, i) && rules[i] == e.rule.value;
      MatchRuleIff(h, path, dir, rules[i]);
      HitIff(h, rules[..i], e.decision, path, dir, "");
    }
  }

  /** One more grant allows exactly the granted request, if it is valid; no other decision changes. */
  lemma GrantAllowsOnlyItself(h: Host, readRules: seq<Rule>, writeRules: seq<Rule>, roots: seq<string>,
                              grants: seq<Request>, granted: Request, req: Request)
    ensures RequestRuling(h, readRules, writeRules, roots, grants + [granted], req) ==
            if req == granted && ValidRequest(req) then Allow
            else RequestRuling(h, readRules, writeRules, roots, grants, req)
  {
    assert req in grants + [granted] <==> req in grants || req == granted;
  }

  /**
   One more read root turns asking into allowing exactly for valid, ungranted reads inside that root that no rule
   asks about, and changes no other decision.
   */
  lemma ReadRootOnlyAllows(h: Host, readRules: seq<Rule>, writeRules: seq<Rule>, roots: seq<string>, root: string,
                           grants: seq<Request>, req: Request)
    ensures var was := RequestRuling(h, readRules, writeRules, roots, grants, req);
            var now := RequestRuling(h, readRules, writeRules, roots + [root], grants, req);
            now == if was == Ask && OpenedBy(h, readRules, root, req) then Allow else was
  {
    if ValidRequest(req) && req !in grants && req.access == Read {
      match NormalizeRequestPath(h, req.path, req.workingDir)
      case None =>
      case Some(p) =>
        var covers := (r: Rule) => MatchRule(h, p.0, p.1, r);
        assert forall r :: r in roots + [root] <==> r in roots || r == root;
        OpeningOnlyAllows(readRules, covers);
    }
  }

  /** With `next` a request is decided as with `grants`, except that `granted` is allowed if it is valid. */
  ghost predicate AllowsAlso(grants: seq<Request>, next: seq<Request>, granted: Request) {
    forall h, readRules, writeRules, roots, req ::
      RequestRuling(h, readRules, writeRules, roots, next, req) ==
      if req == granted && ValidRequest(req) then Allow
      else RequestRuling(h, readRules, writeRules, roots, grants, req)
  }

  /** The grants held for a retry, with one more: whatever the rules and roots, just that request is allowed too. */
  method WithFilesystemGrant(grants: seq<Request>, req: Request) returns (next: seq<Request>)
    ensures AllowsAlso(grants, next, req)
    ensures grants <= next && forall r :: r in next <==> r in grants || r == req
  {
    next := grants + [req];
    forall h, readRules, writeRules, roots, r
      ensures RequestRuling(h, readRules, writeRules, roots, next, r) ==
              if r == req && ValidRequest(r) then Allow
              else RequestRuling(h, readRules, writeRules, roots, grants, r)
    {
      GrantAllowsOnlyItself(h, readRules, writeRules, roots, grants, req, r);
    }
  }

  method HasFilesystemGrant(grants: seq<Request>, req: Request) returns (found: bool)
    ensures found <==> req in grants
  {
    for i := 0 to |grants|
      invariant req !in grants[..i]
    {
      if grants[i] == req { return true; }
      assert grants[..i + 1] == grants[..i] + [grants[i]];
    }
    assert grants[..|grants|] == grants;
    return false;
  }

  /** The first rule with the decision that covers the access; a rule that cannot be decided is passed over. */
  method MatchingRule(rules: seq<Rule>, decision: Decision, covers: Rule -> Option<bool>) returns (found: Option<Rule>)
    ensures found == None <==> !Hit(rules, decision, covers)
    ensures found.Some? ==> exists i: nat :: FirstHit(rules, decision, covers, i) && rules[i] == found.value
  {
    for i := 0 to |rules|
      invariant !Hit(rules[..i], decision, covers)
    {
      if rules[i].decision == decision && covers(rules[i]) == Some(true) {
        assert FirstHit(rules, decision, covers, i);
        return Some(rules[i]);
      }
      assert rules[..i + 1] == rules[..i] + [rules[i]];
      HitSnoc(rules[..i], rules[i], decision, covers);
    }
    assert rules[..|rules|] == rules;
    return None;
  }

  /** What the user is told: nothing when it is allowed, otherwise which path is asked about or denied by a rule. */
  ghost predicate Says(e: Evaluation, asks: string, denies: string, path: string) {
    && (e.decision == Allow ==> e.message == "")
    && (e.decision == Ask ==> e.message == asks + path + ", but you haven't granted it yet.")
    && (e.decision == Deny && e.rule.Some? ==> e.message == denies + path + " has been denied.")
  }

  class Policy {
    const host: Host
    var readRules: seq<Rule>
    var writeRules: seq<Rule>
    var additionalReadRoots: seq<string>

    constructor (host: Host, readRules: seq<Rule>, writeRules: seq<Rule>)
      ensures this.host == host && this.readRules == readRules && this.writeRules == writeRules
      ensures additionalReadRoots == []
    {
      this.host := host;
      this.readRules := readRules;
      this.writeRules := writeRules;
      additionalReadRoots := [];
    }

    method AddReadRoot(root: string)
      modifies this`additionalReadRoots
      ensures var normalized := host.clean(host.trim(root));
              additionalReadRoots ==
                if normalized == "" || normalized in old(additionalReadRoots) then old(additionalReadRoots)
                else old(additionalReadRoots) + [normalized]
    {
      var normalized := host.clean(host.trim(root));
      if normalized == "" { return; }
      for i := 0 to |additionalReadRoots|
        invariant normalized !in additionalReadRoots[..i]
        invariant additionalReadRoots == old(additionalReadRoots)
      {
        if additionalReadRoots[i] == normalized { return; }
        assert additionalReadRoots[..i + 1] == additionalReadRoots[..i] + [additionalReadRoots[i]];
      }
      assert additionalReadRoots[..|additionalReadRoots|] == additionalReadRoots;
      additionalReadRoots := additionalReadRoots + [normalized];
    }

    method PathAllowedForRead(workingDir: string, target: string) returns (allowed: bool)
      ensures allowed <==> OpenToRead(host, additionalReadRoots, workingDir, target)
      ensures allowed <==> InWorkspace(host, additionalReadRoots, workingDir, target)
    {
      OpenIff(host, additionalReadRoots, workingDir, target);
      hide InWorkspace;
      if PathWithinRoot(host, workingDir, target) { return true; }
      for i := 0 to |additionalReadRoots|
        invariant forall r :: r in additionalReadRoots[..i] ==> !PathWithinRoot(host, r, target)
      {
        if PathWithinRoot(host, additionalReadRoots[i], target) { return true; }
        assert additionalReadRoots[..i + 1] == additionalReadRoots[..i] + [additionalReadRoots[i]];
      }
      assert additionalReadRoots[..|additionalReadRoots|] == additionalReadRoots;
      return false;
    }

    /** The read ladder, for whole paths and for glob queries. */
    method ReadLadder(requested: string, path: string, workingDir: string, covers: Rule -> Option<bool>)
        returns (e: Evaluation)
      ensures Decides(e, readRules, covers, OpenToRead(host, additionalReadRoots, workingDir, path))
      ensures Says(e, "Claude requested permissions to read from ", "Permission to read ", requested)
    {
      var asks := "Claude requested permissions to read from " + requested + ", but you haven't granted it yet.";
      var denied := MatchingRule(readRules, Deny, covers);
      if denied != None { return Evaluation(Deny, denied, "Permission to read " + requested + " has been denied."); }
      var asked := MatchingRule(readRules, Ask, covers);
      if asked != None { return Evaluation(Ask, asked, asks); }
      var open := PathAllowedForRead(workingDir, path);
      if open { return Evaluation(Allow, None, ""); }
      var allowed := MatchingRule(readRules, Allow, covers);
      if allowed != None { return Evaluation(Allow, allowed, ""); }
      return Evaluation(Ask, None, asks);
    }

    method EvaluateRead(req: Request, path: string, workingDir: string) returns (e: Evaluation)
      ensures Decides(e, readRules, r => MatchRule(host, path, workingDir, r),
                      OpenToRead(host, additionalReadRoots, workingDir, path))
      ensures Says(e, "Claude requested permissions to read from ", "Permission to read ", req.path)
    {
      e := ReadLadder(req.path, path, workingDir, r => MatchRule(host, path, workingDir, r));
    }

    method EvaluateWrite(req: Request, path: string, workingDir: string) returns (e: Evaluation)
      ensures Decides(e, writeRules, r => MatchRule(host, path, workingDir, r), false)
      ensures Says(e, "Claude requested permissions to write to ", "Permission to write ", req.path)
    {
      var covers := r => MatchRule(host, path, workingDir, r);
      var asks := "Claude requested permissions to write to " + req.path + ", but you haven't granted it yet.";
      var denied := MatchingRule(writeRules, Deny, covers);
      if denied != None { return Evaluation(Deny, denied, "Permission to write " + req.path + " has been denied."); }
      var asked := MatchingRule(writeRules, Ask, covers);
      if asked != None { return Evaluation(Ask, asked, asks); }
      var allowed := MatchingRule(writeRules, Allow, covers);
      if allowed != None { return Evaluation(Allow, allowed, ""); }
      return Evaluation(Ask, None, asks);
    }

    method EvaluateFilesystem(grants: seq<Request>, req: Request) returns (e: Evaluation)
      ensures e.decision == RequestRuling(host, readRules, writeRules, additionalReadRoots, grants, req)
      ensures e.rule.Some? ==>
                && ValidRequest(req) && req !in grants
                && e.rule.value.decision == e.decision
                && e.rule.value in (if req.access == Read then readRules else writeRules)
      ensures var rules := if req.access == Read then readRules else writeRules;
              && (e.decision == Deny <==> MustDeny(host, rules, grants, req, None))
              && (e.decision == Allow <==> MayAllow(host, rules, additionalReadRoots, grants, req, None))
      ensures if req.access == Read then
                Says(e, "Claude requested permissions to read from ", "Permission to read ", req.path)
              else
                Says(e, "Claude requested permissions to write to ", "Permission to write ", req.path)
    {
      RequestIff(host, readRules, writeRules, additionalReadRoots, grants, req);
      hide MustDeny, MayAllow;
      if !ValidRequest(req) {
        return Evaluation(Deny, None, "permission: invalid filesystem request");
      }
      var granted := HasFilesystemGrant(grants, req);
      if granted { return Evaluation(Allow, None, ""); }
      var normalized := NormalizeRequestPath(host, req.path, req.workingDir);
      if normalized == None {
        return Evaluation(Deny, None, "permission: normalize filesystem path");
      }
      var (path, workingDir) := normalized.value;
      if req.access == Read {
        e := EvaluateRead(req, path, workingDir);
      } else {
        e := EvaluateWrite(req, path, workingDir);
      }
    }

    method CheckReadPermissionForGlob(grants: seq<Request>, toolName: string, searchRoot: string, workingDir: string,
          query: string)
      returns (e: Evaluation)
      ensures var req := Request(toolName, searchRoot, workingDir, Read);
              var normalized := NormalizeRequestPath(host, searchRoot, workingDir);
              if !ValidRequest(req) then e.decision == Deny
              else if req in grants then e.decision == Allow
              else if normalized == None then e.decision == Deny
              else var (path, dir) := normalized.value;
                   Decides(e, readRules, r => MatchGlobRule(host, path, dir, query, r),
                           OpenToRead(host, additionalReadRoots, dir, path))
      ensures var req := Request(toolName, searchRoot, workingDir, Read);
              && (e.decision == Deny <==> MustDeny(host, readRules, grants, req, Some(query)))
              && (e.decision == Allow <==> MayAllow(host, readRules, additionalReadRoots, grants, req, Some(query)))
      ensures Says(e, "Claude requested permissions to read from ", "Permission to read ", searchRoot)
    {
      var req := Request(toolName, searchRoot, workingDir, Read);
      if !ValidRequest(req) {
        return Evaluation(Deny, None, "permission: invalid filesystem request");
      }
      var granted := HasFilesystemGrant(grants, req);
      if granted { return Evaluation(Allow, None, ""); }
      var normalized := NormalizeRequestPath(host, searchRoot, workingDir);
      if normalized == None {
        return Evaluation(Deny, None, "permission: normalize filesystem path");
      }
      var (path, dir) := normalized.value;
      QueryIff(host, readRules, additionalReadRoots, grants, req, query, path, dir);
      hide MustDeny, MayAllow;
      e := ReadLadder(searchRoot, path, dir, r => MatchGlobRule(host, path, dir, query, r));
    }
  }
}
