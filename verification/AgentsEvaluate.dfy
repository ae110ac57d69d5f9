/** Evaluating a policy against the ref updates of a push, and the law that merging two
    parsed policies enforces exactly what they enforce separately. */
module AgentsEvaluate {
  import opened Common
  import opened AgentsPolicy
  import AgentsParser

  datatype Update = Update(refName: string, oldOid: string, newOid: string)

  datatype Answer<T> = Yes(value: T) | Failed

  /** The repository information predicates ask for; any question may fail. */
  datatype Files = Files(
    changed: (string, string) -> Answer<seq<string>>,
    size: (string, string) -> Answer<int>,
    fastForward: (string, string) -> Answer<bool>)

  datatype Reason =
    | Deletes(branch: string, glob: string)
    | Pushes(branch: string, glob: string)
    | Forces(branch: string, glob: string)
    | Modifies(path: string, glob: string)
    | TooLarge(path: string, size: int, limit: int)

  datatype Violation = Violation(pred: Pred, refName: string, reason: Reason)

  datatype Match = NoMatch | Matched(reason: Reason) | Error

  /** `path.Match` with a malformed pattern read as no match. */
  type Glob = (string, string) -> bool

  const ZERO_OID: string := "0000000000000000000000000000000000000000"

  const HEADS: string := "refs/heads/"

  function BranchName(refName: string): string { if HEADS <= refName then refName[|HEADS|..] else refName }

  predicate BranchMatches(glob: Glob, pattern: string, refName: string)
  {
    HEADS <= refName && pattern != "" && glob(pattern, BranchName(refName))
  }

  predicate PathMatches(glob: Glob, pattern: string, p: string)
  {
    if |pattern| >= 3 && pattern[|pattern| - 3..] == "/**" then
      var prefix := pattern[..|pattern| - 3];
      p == prefix || prefix + "/" <= p
    else pattern == "**" || glob(pattern, p)
  }

  function FirstPath(glob: Glob, pattern: string, paths: seq<string>): Match
  {
    if paths == [] then NoMatch
    else if PathMatches(glob, pattern, paths[0]) then Matched(Modifies(paths[0], pattern))
    else FirstPath(glob, pattern, paths[1..])
  }

  function FirstLarge(files: Files, oid: string, limit: int, paths: seq<string>): Match
  {
    if paths == [] then NoMatch
    else
      match files.size(oid, paths[0])
      case Failed => Error
      case Yes(n) => if n > limit then Matched(TooLarge(paths[0], n, limit)) else FirstLarge(files, oid, limit, paths[1..])
  }

  function MatchOne(glob: Glob, files: Option<Files>, p: Pred, u: Update): Match
  {
    if p.name == "delete_branch" then
      if BranchMatches(glob, p.branchGlob, u.refName) && u.newOid == ZERO_OID
      then Matched(Deletes(BranchName(u.refName), p.branchGlob)) else NoMatch
    else if p.name == "push_to_branch" then
      if BranchMatches(glob, p.branchGlob, u.refName)
      then Matched(Pushes(BranchName(u.refName), p.branchGlob)) else NoMatch
    else if p.name == "force_push_to_branch" then
      if !BranchMatches(glob, p.branchGlob, u.refName) || u.oldOid == ZERO_OID || u.newOid == ZERO_OID then NoMatch
      else if files.None? then Error
      else
        match files.value.fastForward(u.oldOid, u.newOid)
        case Failed => Error
        case Yes(ff) => if ff then NoMatch else Matched(Forces(BranchName(u.refName), p.branchGlob))
    else if p.name == "modify_path" then
      if files.None? then Error
      else
        match files.value.changed(u.oldOid, u.newOid)
        case Failed => Error
        case Yes(paths) => FirstPath(glob, p.pathGlob, paths)
    else if p.name == "push_binary_over_size" then
      if files.None? then Error
      else
        match files.value.changed(u.oldOid, u.newOid)
        case Failed => Error
        case Yes(paths) => FirstLarge(files.value, u.newOid, p.maxBytes, paths)
    else NoMatch
  }

  /** A path rule matches exactly when some changed path does, and names the first. */
  lemma {:induction false} FirstPathIff(glob: Glob, pattern: string, paths: seq<string>)
    ensures FirstPath(glob, pattern, paths).Matched? <==> exists p | p in paths :: PathMatches(glob, pattern, p)
  {
    if paths != [] {
      FirstPathIff(glob, pattern, paths[1..]);
      assert paths == [paths[0]] + paths[1..];
    }
  }

  // ------------------------------------------------ what the five rules mean

  /** The id that stands for no commit. */
  predicate NoCommit(oid: string) { |oid| == 40 && forall c | c in oid :: c == '0' }

  /** The update is of this branch, and the rule's pattern covers it. */
  predicate OnBranch(glob: Glob, pattern: string, u: Update, branch: string)
  {
    u.refName == "refs/heads/" + branch && pattern != "" && glob(pattern, branch)
  }

  /** A pattern that ends in a slash and two stars covers what stands before them and all
      below it; any other pattern is two stars, for everything, or a glob. */
  ghost predicate Covers(glob: Glob, pattern: string, path: string)
  {
    if exists prefix :: pattern == prefix + "/**"
    then exists prefix :: pattern == prefix + "/**" && (path == prefix || prefix + "/" <= path)
    else pattern == "**" || glob(pattern, path)
  }

  /** The update rewrites the branch instead of moving it. */
  ghost predicate Rewrites(files: Files, u: Update) { files.fastForward(u.oldOid, u.newOid) == Yes(false) }

  /** `x` is the first element that satisfies `f`. */
  ghost predicate IsFirst<T(!new)>(f: T -> bool, xs: seq<T>, x: T)
  {
    exists i | 0 <= i < |xs| :: xs[i] == x && f(x) && forall j | 0 <= j < i :: !f(xs[j])
  }

  predicate Small(files: Files, oid: string, limit: int, path: string)
  {
    files.size(oid, path).Yes? && files.size(oid, path).value <= limit
  }

  /** The update breaks the rule, for this reason. */
  ghost predicate Breaks(glob: Glob, files: Option<Files>, p: Pred, u: Update, why: Reason)
  {
    match why
    case Deletes(branch, pattern) =>
      p.name == "delete_branch" && pattern == p.branchGlob && OnBranch(glob, pattern, u, branch) && NoCommit(u.newOid)
    case Pushes(branch, pattern) =>
      p.name == "push_to_branch" && pattern == p.branchGlob && OnBranch(glob, pattern, u, branch)
    case Forces(branch, pattern) =>
      && p.name == "force_push_to_branch" && pattern == p.branchGlob && OnBranch(glob, pattern, u, branch)
      && !NoCommit(u.oldOid) && !NoCommit(u.newOid) && files.Some? && Rewrites(files.value, u)
    case Modifies(path, pattern) =>
      && p.name == "modify_path" && pattern == p.pathGlob && files.Some?
      && files.value.changed(u.oldOid, u.newOid).Yes?
      && IsFirst(q => Covers(glob, pattern, q), files.value.changed(u.oldOid, u.newOid).value, path)
    case TooLarge(path, size, limit) =>
      && p.name == "push_binary_over_size" && limit == p.maxBytes && files.Some?
      && files.value.changed(u.oldOid, u.newOid).Yes?
      && IsFirst(q => !Small(files.value, u.newOid, limit, q), files.value.changed(u.oldOid, u.newOid).value, path)
      && files.value.size(u.newOid, path) == Yes(size)
  }

  /** A question the rule has to ask about the update is not answered. */
  ghost predicate Unanswered(glob: Glob, files: Option<Files>, p: Pred, u: Update)
  {
    if p.name == "force_push_to_branch" then
      && (exists branch :: OnBranch(glob, p.branchGlob, u, branch)) && !NoCommit(u.oldOid) && !NoCommit(u.newOid)
      && (files.None? || files.value.fastForward(u.oldOid, u.newOid).Failed?)
    else if p.name == "modify_path" then files.None? || files.value.changed(u.oldOid, u.newOid).Failed?
    else if p.name == "push_binary_over_size" then
      files.None? || files.value.changed(u.oldOid, u.newOid).Failed? ||
      exists path :: IsFirst(q => !Small(files.value, u.newOid, p.maxBytes, q), files.value.changed(u.oldOid, u.newOid).value, path)
                     && files.value.size(u.newOid, path).Failed?
    else false
  }

  lemma NoCommitIff(oid: string)
    ensures oid == ZERO_OID <==> NoCommit(oid)
  {
    assert |ZERO_OID| == 40 && forall c | c in ZERO_OID :: c == '0';
    if NoCommit(oid) {
      assert forall i | 0 <= i < 40 :: oid[i] in oid && ZERO_OID[i] in ZERO_OID;
    }
  }

  lemma OnBranchIff(glob: Glob, pattern: string, u: Update, branch: string)
    ensures OnBranch(glob, pattern, u, branch) <==> BranchMatches(glob, pattern, u.refName) && branch == BranchName(u.refName)
  {
    if HEADS <= u.refName {
      assert u.refName == HEADS + u.refName[|HEADS|..];
    }
    if u.refName == "refs/heads/" + branch {
      assert u.refName[|HEADS|..] == branch;
    }
  }

  lemma CoversIff(glob: Glob, pattern: string, path: string)
    ensures Covers(glob, pattern, path) <==> PathMatches(glob, pattern, path)
  {
    forall prefix | pattern == prefix + "/**"
      ensures |pattern| >= 3 && pattern[|pattern| - 3..] == "/**" && pattern[..|pattern| - 3] == prefix
    {
    }
    if |pattern| >= 3 && pattern[|pattern| - 3..] == "/**" {
      assert pattern == pattern[..|pattern| - 3] + "/**";
    }
  }

  lemma FirstOf<T(!new)>(f: T -> bool, xs: seq<T>, x: T)
    ensures IsFirst(f, xs, x) <==> xs != [] && if f(xs[0]) then x == xs[0] else IsFirst(f, xs[1..], x)
  {
    if xs != [] {
      if IsFirst(f, xs, x) && !f(xs[0]) {
        var i :| 0 <= i < |xs| && xs[i] == x && f(x) && forall j | 0 <= j < i :: !f(xs[j]);
        assert xs[1..][i - 1] == x;
      }
      if !f(xs[0]) && IsFirst(f, xs[1..], x) {
        var i :| 0 <= i < |xs[1..]| && xs[1..][i] == x && f(x) && forall j | 0 <= j < i :: !f(xs[1..][j]);
        var n := i + 1;
        assert xs[n] == x && forall j | 0 < j < n :: xs[j] == xs[1..][j - 1];
      }
    }
  }

  /** The path a path rule names is the first its pattern covers. */
  lemma {:induction false} FirstCovered(glob: Glob, pattern: string, paths: seq<string>, path: string)
    ensures FirstPath(glob, pattern, paths) == Matched(Modifies(path, pattern)) <==> IsFirst(q => Covers(glob, pattern, q), paths, path)
    ensures FirstPath(glob, pattern, paths).Matched? ==>
              FirstPath(glob, pattern, paths).reason.Modifies? && FirstPath(glob, pattern, paths).reason.glob == pattern
    ensures !FirstPath(glob, pattern, paths).Error?
  {
    FirstOf(q => Covers(glob, pattern, q), paths, path);
    if paths != [] {
      CoversIff(glob, pattern, paths[0]);
      FirstCovered(glob, pattern, paths[1..], path);
    }
  }

  /** The first path not known to be small decides a size rule: it is too large, or its size
      is not known. */
  lemma {:induction false} FirstUnsmall(files: Files, oid: string, limit: int, paths: seq<string>, path: string)
    ensures var m := FirstLarge(files, oid, limit, paths);
            var first := IsFirst(q => !Small(files, oid, limit, q), paths, path);
            && (forall n :: m == Matched(TooLarge(path, n, limit)) <==> first && files.size(oid, path) == Yes(n))
            && (first && files.size(oid, path).Failed? ==> m.Error?)
            && (m.Matched? ==> m.reason.TooLarge? && m.reason.limit == limit)
  {
    FirstOf(q => !Small(files, oid, limit, q), paths, path);
    if paths != [] {
      FirstUnsmall(files, oid, limit, paths[1..], path);
    }
  }

  lemma {:induction false} ErrorIsUnanswered(files: Files, oid: string, limit: int, paths: seq<string>) returns (path: string)
    requires FirstLarge(files, oid, limit, paths).Error?
    ensures IsFirst(q => !Small(files, oid, limit, q), paths, path) && files.size(oid, path).Failed?
  {
    if files.size(oid, paths[0]).Failed? {
      path := paths[0];
    } else {
      path := ErrorIsUnanswered(files, oid, limit, paths[1..]);
    }
    FirstOf(q => !Small(files, oid, limit, q), paths, path);
  }

  /** Matching reports exactly the reasons for which the update breaks the rule. */
  lemma MatchedIff(glob: Glob, files: Option<Files>, p: Pred, u: Update, why: Reason)
    ensures MatchOne(glob, files, p, u) == Matched(why) <==> Breaks(glob, files, p, u, why)
  {
    NoCommitIff(u.oldOid);
    NoCommitIff(u.newOid);
    ReasonFits(glob, files, p, u);
    match why
    case Deletes(branch, _) => OnBranchIff(glob, p.branchGlob, u, branch);
    case Pushes(branch, _) => OnBranchIff(glob, p.branchGlob, u, branch);
    case Forces(branch, _) => OnBranchIff(glob, p.branchGlob, u, branch);
    case Modifies(path, _) =>
      if files.Some? && files.value.changed(u.oldOid, u.newOid).Yes? {
        FirstCovered(glob, p.pathGlob, files.value.changed(u.oldOid, u.newOid).value, path);
      }
    case TooLarge(path, _, _) =>
      if files.Some? && files.value.changed(u.oldOid, u.newOid).Yes? {
        FirstUnsmall(files.value, u.newOid, p.maxBytes, files.value.changed(u.oldOid, u.newOid).value, path);
      }
  }

  /** Each rule has its own kind of reason. */
  lemma ReasonFits(glob: Glob, files: Option<Files>, p: Pred, u: Update)
    ensures var m := MatchOne(glob, files, p, u);
            m.Matched? ==>
              && (m.reason.Deletes? <==> p.name == "delete_branch") && (m.reason.Pushes? <==> p.name == "push_to_branch")
              && (m.reason.Forces? <==> p.name == "force_push_to_branch") && (m.reason.Modifies? <==> p.name == "modify_path")
              && (m.reason.TooLarge? <==> p.name == "push_binary_over_size")
  {
    if files.Some? && files.value.changed(u.oldOid, u.newOid).Yes? {
      var paths := files.value.changed(u.oldOid, u.newOid).value;
      FirstCovered(glob, p.pathGlob, paths, "");
      FirstUnsmall(files.value, u.newOid, p.maxBytes, paths, "");
    }
  }

  /** Matching fails exactly when a question it has to ask is not answered. */
  lemma FailsIff(glob: Glob, files: Option<Files>, p: Pred, u: Update)
    ensures MatchOne(glob, files, p, u).Error? <==> Unanswered(glob, files, p, u)
  {
    NoCommitIff(u.oldOid);
    NoCommitIff(u.newOid);
    if p.name == "force_push_to_branch" {
      OnBranchIff(glob, p.branchGlob, u, BranchName(u.refName));
      forall branch
        ensures OnBranch(glob, p.branchGlob, u, branch) ==> BranchMatches(glob, p.branchGlob, u.refName)
      {
        OnBranchIff(glob, p.branchGlob, u, branch);
      }
    } else if files.Some? && files.value.changed(u.oldOid, u.newOid).Yes? {
      var paths := files.value.changed(u.oldOid, u.newOid).value;
      if p.name == "modify_path" {
        FirstCovered(glob, p.pathGlob, paths, "");
      } else if p.name == "push_binary_over_size" {
        SizeFailsIff(files.value, u.newOid, p.maxBytes, paths);
      }
    }
  }

  lemma SizeFailsIff(files: Files, oid: string, limit: int, paths: seq<string>)
    ensures FirstLarge(files, oid, limit, paths).Error? <==>
            exists path :: IsFirst(q => !Small(files, oid, limit, q), paths, path) && files.size(oid, path).Failed?
  {
    if FirstLarge(files, oid, limit, paths).Error? {
      var path := ErrorIsUnanswered(files, oid, limit, paths);
    }
    if path :| IsFirst(q => !Small(files, oid, limit, q), paths, path) && files.size(oid, path).Failed? {
      FirstUnsmall(files, oid, limit, paths, path);
    }
  }

  // ------------------------------------------------------------- evaluation

  /** What matching one predicate against one update yields; kept abstract below. */
  type Judge = (Pred, Update) -> Match

  function Found(judge: Judge, p: Pred, u: Update): seq<Violation>
  {
    match judge(p, u)
    case Matched(why) => [Violation(p, u.refName, why)]
    case NoMatch => []
    case Error => []
  }

  /** Violations in policy order, then update order. */
  function AllOf(judge: Judge, preds: seq<Pred>, us: seq<Update>): seq<Violation>
  {
    if preds == [] then []
    else
      var n := |preds| - 1;
      AllOf(judge, preds[..n], us) + OnePred(judge, preds[n], us)
  }

  function OnePred(judge: Judge, p: Pred, us: seq<Update>): seq<Violation>
  {
    if us == [] then []
    else
      var n := |us| - 1;
      OnePred(judge, p, us[..n]) + Found(judge, p, us[n])
  }

  ghost predicate PredFails(judge: Judge, p: Pred, us: seq<Update>) { exists u | u in us :: judge(p, u).Error? }

  ghost predicate Fails(judge: Judge, preds: seq<Pred>, us: seq<Update>)
  {
    exists p | p in preds :: PredFails(judge, p, us)
  }

  method EvaluatePred(judge: Judge, p: Pred, us: seq<Update>) returns (r: Option<seq<Violation>>)
    ensures r.None? <==> PredFails(judge, p, us)
    ensures r.Some? ==> r.value == OnePred(judge, p, us)
  {
    var out := [];
    assert us[..0] == [];
    for i := 0 to |us|
      invariant out == OnePred(judge, p, us[..i])
      invariant forall u | u in us[..i] :: !judge(p, u).Error?
    {
      var m := judge(p, us[i]);
      if m.Error? {
        return None;
      }
      assert us[..i + 1][..i] == us[..i];
      if m.Matched? {
        out := out + [Violation(p, us[i].refName, m.reason)];
      }
    }
    assert us[..|us|] == us;
    r := Some(out);
  }

  /** Every predicate against every update; the first failing question aborts. */
  method Evaluate(judge: Judge, policy: Option<Policy>, us: seq<Update>) returns (r: Option<seq<Violation>>)
    ensures r.None? <==> Fails(judge, Effective(policy), us)
    ensures r.Some? ==> r.value == AllOf(judge, Effective(policy), us)
  {
    if policy.None? || policy.value.empty || |policy.value.never| == 0 {
      return Some([]);
    }
    var preds := policy.value.never;
    var out := [];
    assert preds[..0] == [];
    for i := 0 to |preds|
      invariant out == AllOf(judge, preds[..i], us)
      invariant forall p | p in preds[..i] :: !PredFails(judge, p, us)
    {
      var found := EvaluatePred(judge, preds[i], us);
      if found.None? {
        assert preds[i] in preds;
        return None;
      }
      assert preds[..i + 1][..i] == preds[..i];
      out := out + found.value;
    }
    assert preds[..|preds|] == preds;
    r := Some(out);
  }

  // ------------------------------------------------- merging and enforcement

  ghost predicate Violates(judge: Judge, p: Pred, us: seq<Update>, v: Violation)
  {
    exists u | u in us :: v in Found(judge, p, u)
  }

  lemma {:induction false} OnePredIff(judge: Judge, p: Pred, us: seq<Update>, v: Violation)
    ensures v in OnePred(judge, p, us) <==> Violates(judge, p, us, v)
  {
    if us != [] {
      var n := |us| - 1;
      OnePredIff(judge, p, us[..n], v);
      assert us == us[..n] + [us[n]];
      if Violates(judge, p, us, v) && v !in Found(judge, p, us[n]) {
        var u :| u in us && v in Found(judge, p, u);
        assert u in us[..n];
      }
    }
  }

  lemma {:induction false} AllOfIff(judge: Judge, preds: seq<Pred>, us: seq<Update>, v: Violation)
    ensures v in AllOf(judge, preds, us) <==> exists p | p in preds :: Violates(judge, p, us, v)
  {
    if preds != [] {
      var n := |preds| - 1;
      AllOfIff(judge, preds[..n], us, v);
      OnePredIff(judge, preds[n], us, v);
      assert preds == preds[..n] + [preds[n]];
    }
  }

  lemma SamePredicates(judge: Judge, a: seq<Pred>, b: seq<Pred>, c: seq<Pred>, us: seq<Update>)
    requires forall p :: p in a <==> p in b || p in c
    ensures Fails(judge, a, us) <==> Fails(judge, b, us) || Fails(judge, c, us)
    ensures forall v :: v in AllOf(judge, a, us) <==> v in AllOf(judge, b, us) || v in AllOf(judge, c, us)
  {
    forall v
      ensures v in AllOf(judge, a, us) <==> v in AllOf(judge, b, us) || v in AllOf(judge, c, us)
    {
      AllOfIff(judge, a, us, v);
      AllOfIff(judge, b, us, v);
      AllOfIff(judge, c, us, v);
    }
  }

  /** Merging preserves enforcement. For parsed policies the merged policy blocks exactly
      the violations either blocks, and cannot be evaluated exactly when one cannot. */
  lemma MergePreserves(judge: Judge, org: Option<Policy>, repo: Option<Policy>, us: seq<Update>)
    requires AllParsed(Effective(org)) && AllParsed(Effective(repo))
    ensures var a, b := Effective(org), Effective(repo);
            var merged := Fresh(Key, a + b, {});
            && (Fails(judge, merged, us) <==> Fails(judge, a, us) || Fails(judge, b, us))
            && (forall v :: v in AllOf(judge, merged, us) <==> v in AllOf(judge, a, us) || v in AllOf(judge, b, us))
  {
    var a, b := Effective(org), Effective(repo);
    FreshKeepsAll(a + b);
    SamePredicates(judge, Fresh(Key, a + b, {}), a, b, us);
  }

  method EvaluateMerged(judge: Judge, org: Option<Policy>, repo: Option<Policy>, us: seq<Update>)
    returns (r: Option<seq<Violation>>)
    requires AllParsed(Effective(org)) && AllParsed(Effective(repo))
    ensures r.None? <==> Fails(judge, Effective(org), us) || Fails(judge, Effective(repo), us)
    ensures r.Some? ==> forall v :: v in r.value <==>
                          v in AllOf(judge, Effective(org), us) || v in AllOf(judge, Effective(repo), us)
  {
    var merged := Merge(org, repo);
    MergePreserves(judge, org, repo, us);
    r := Evaluate(judge, Some(merged), us);
  }

  /** Matching as the code does it, for one glob matcher and one resolver. */
  function Matching(glob: Glob, files: Option<Files>): Judge { (p, u) => MatchOne(glob, files, p, u) }

  /** Some line of the document declares the predicate in a Never section. */
  ghost predicate Declared(lines: seq<string>, p: Pred)
  {
    exists i | 0 <= i < |lines| :: AgentsParser.Declares(AgentsParser.READER, lines, i, p)
  }

  /** One of the two documents declares it. */
  ghost predicate Binding(org: seq<string>, repo: seq<string>, p: Pred) { Declared(org, p) || Declared(repo, p) }

  /** Matching some binding predicate against some update fails. */
  ghost predicate SomeFails(judge: Judge, org: seq<string>, repo: seq<string>, us: seq<Update>)
  {
    exists p :: Binding(org, repo, p) && PredFails(judge, p, us)
  }

  /** Some binding predicate matches some update, and `v` says so. */
  ghost predicate SomeViolates(judge: Judge, org: seq<string>, repo: seq<string>, us: seq<Update>, v: Violation)
  {
    exists p :: Binding(org, repo, p) && Violates(judge, p, us, v)
  }

  lemma FailsIffBinding(judge: Judge, org: seq<string>, repo: seq<string>, a: seq<Pred>, b: seq<Pred>, us: seq<Update>)
    requires forall p :: (p in a <==> Declared(org, p)) && (p in b <==> Declared(repo, p))
    ensures Fails(judge, a, us) || Fails(judge, b, us) <==> SomeFails(judge, org, repo, us)
  {
    if SomeFails(judge, org, repo, us) {
      var p :| Binding(org, repo, p) && PredFails(judge, p, us);
      assert p in a || p in b;
    }
    if p :| (p in a || p in b) && PredFails(judge, p, us) {
      assert Binding(org, repo, p);
    }
  }

  lemma AllOfIffBinding(judge: Judge, org: seq<string>, repo: seq<string>, a: seq<Pred>, b: seq<Pred>, us: seq<Update>,
                        v: Violation)
    requires forall p :: (p in a <==> Declared(org, p)) && (p in b <==> Declared(repo, p))
    ensures v in AllOf(judge, a, us) || v in AllOf(judge, b, us) <==> SomeViolates(judge, org, repo, us, v)
  {
    AllOfIff(judge, a, us, v);
    AllOfIff(judge, b, us, v);
    if SomeViolates(judge, org, repo, us, v) {
      var p :| Binding(org, repo, p) && Violates(judge, p, us, v);
      assert p in a || p in b;
    }
    if p :| (p in a || p in b) && Violates(judge, p, us, v) {
      assert Binding(org, repo, p);
    }
  }

  /** The parsed predicates of a document body: all of parsed shape, exactly those it
      declares. */
  method ParseBody(lines: seq<string>) returns (p: Policy)
    ensures AllParsed(Effective(Some(p))) && forall q :: q in Effective(Some(p)) <==> Declared(lines, q)
  {
    var preds := AgentsParser.ParseNeverBlock(lines);
    AgentsParser.ParsedPolicy(lines);
    p := Policy(|preds| == 0, preds);
  }

  /** From two documents to the verdict on a push: parse both, merge, evaluate.  Evaluation
      fails exactly when some declared rule has to ask something about some update that is
      not answered; otherwise the violations are exactly the breaches of declared rules. */
  method Enforce(glob: Glob, files: Option<Files>, org: seq<string>, repo: seq<string>, us: seq<Update>)
    returns (r: Option<seq<Violation>>)
    ensures r.None? <==> exists p, u :: Binding(org, repo, p) && u in us && Unanswered(glob, files, p, u)
    ensures r.Some? ==> forall v :: v in r.value <==>
              Binding(org, repo, v.pred) && exists u | u in us :: u.refName == v.refName && Breaks(glob, files, v.pred, u, v.reason)
  {
    var a := ParseBody(org);
    var b := ParseBody(repo);
    var judge := Matching(glob, files);
    r := EvaluateMerged(judge, Some(a), Some(b), us);
    FailsIffBinding(judge, org, repo, Effective(Some(a)), Effective(Some(b)), us);
    SomeFailsIff(glob, files, org, repo, us);
    if r.Some? {
      forall v
        ensures v in r.value <==>
                Binding(org, repo, v.pred) && exists u | u in us :: u.refName == v.refName && Breaks(glob, files, v.pred, u, v.reason)
      {
        AllOfIffBinding(judge, org, repo, Effective(Some(a)), Effective(Some(b)), us, v);
        SomeViolatesIff(glob, files, org, repo, us, v);
      }
    }
  }

  lemma SomeFailsIff(glob: Glob, files: Option<Files>, org: seq<string>, repo: seq<string>, us: seq<Update>)
    ensures SomeFails(Matching(glob, files), org, repo, us) <==>
            exists p, u :: Binding(org, repo, p) && u in us && Unanswered(glob, files, p, u)
  {
    var judge := Matching(glob, files);
    if SomeFails(judge, org, repo, us) {
      var p :| Binding(org, repo, p) && PredFails(judge, p, us);
      var u :| u in us && judge(p, u).Error?;
      FailsIff(glob, files, p, u);
    }
    if p, u :| Binding(org, repo, p) && u in us && Unanswered(glob, files, p, u) {
      FailsIff(glob, files, p, u);
      assert judge(p, u).Error?;
      assert PredFails(judge, p, us);
    }
  }

  lemma FoundIff(glob: Glob, files: Option<Files>, p: Pred, u: Update, v: Violation)
    ensures v in Found(Matching(glob, files), p, u) <==> v.pred == p && v.refName == u.refName && Breaks(glob, files, p, u, v.reason)
  {
    MatchedIff(glob, files, p, u, v.reason);
  }

  lemma SomeViolatesIff(glob: Glob, files: Option<Files>, org: seq<string>, repo: seq<string>, us: seq<Update>, v: Violation)
    ensures SomeViolates(Matching(glob, files), org, repo, us, v) <==>
            Binding(org, repo, v.pred) && exists u | u in us :: u.refName == v.refName && Breaks(glob, files, v.pred, u, v.reason)
  {
    var judge := Matching(glob, files);
    if SomeViolates(judge, org, repo, us, v) {
      var p :| Binding(org, repo, p) && Violates(judge, p, us, v);
      var u :| u in us && v in Found(judge, p, u);
      FoundIff(glob, files, p, u, v);
    }
    if Binding(org, repo, v.pred) {
      if u :| u in us && u.refName == v.refName && Breaks(glob, files, v.pred, u, v.reason) {
        FoundIff(glob, files, v.pred, u, v);
        assert Violates(judge, v.pred, us, v);
      }
    }
  }

  lemma FreshPair<T>(key: T -> string, a: T, b: T)
    requires key(a) == key(b)
    ensures Fresh(key, [a] + [b], {}) == [a]
  {
    FreshAppend(key, [a], b, {});
    assert key([a][0]) in Keys(key, [a]);
    assert Fresh(key, [a], {}) == [a] + Fresh(key, [a][1..], {key(a)});
  }

  /** A hand-made rule with a bar in its path selector is dropped in favour of a parsed
      one it has nothing to do with, and its violations go with it. */
  lemma HandMadeRuleIsLost(glob: Glob, u: Update)
    requires glob("a", "a") && !glob("a|b", "a") && u.refName == "refs/heads/a"
    ensures var kept, lost := Pred("push_to_branch", "a|b", "", 0), Pred("push_to_branch", "a", "b|", 0);
            && Parsed(kept) && !Parsed(lost) && Fresh(Key, [kept] + [lost], {}) == [kept]
            && MatchOne(glob, None, lost, u).Matched? && MatchOne(glob, None, kept, u).NoMatch?
  {
    var kept, lost := Pred("push_to_branch", "a|b", "", 0), Pred("push_to_branch", "a", "b|", 0);
    KeyCollides("push_to_branch");
    FreshPair(Key, kept, lost);
    assert u.refName[|HEADS|..] == "a";
    assert "push_to_branch"[0] == 'p';
  }
}
