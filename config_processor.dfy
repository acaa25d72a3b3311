/**
 * `ConfigProcessor`: for each YAML file, evaluate the ordered rules; a
 * matching rule runs its ordered actions (`skip`, `remove-props`, `save`) on
 * the document loaded once for that file.
 *
 * The specification functions below (`RunActions`, `RunRules`, `RunFile`,
 * `RunBatch`) describe a run on values; the methods of class
 * `ConfigProcessor` perform it on a `FileSystem` object and are proved to
 * agree with them.
 */
module ConfigProcessing {
  import opened Wrappers
  import opened YamlDocument
  import opened FileSystemHelper
  import opened YamlHelper

  /** The parameters of an action entry: `props` is read by `remove-props`, `dest` by `save`. */
  datatype Params = Params(props: Option<seq<string>>, dest: Option<string>)

  /** One `name: parameters` entry of a rule's `actions` mapping. */
  datatype Action = Action(name: string, params: Params)

  /**
   * The `actions` key of a rule: missing, present with a value that is not an
   * array (`~` or a scalar), or present with its entries in order.
   */
  datatype ActionsKey = Absent | NotAnArray | ActionList(list: seq<Action>)

  /**
   * A rule of the settings file: its `description`, its `match` regex list (if
   * the key is there and not null), whether the legacy `action` key is present,
   * and its `actions` key.
   */
  datatype Rule = Rule(description: string, patterns: Option<seq<string>>, hasAction: bool, actions: ActionsKey)

  /** What aborts a run: the exceptions and type errors the source lets propagate. */
  datatype Error =
    | BothActionKeys                // LogicException: "action" and "actions" together
    | NoActions                     // a matched rule without `actions` (null passed for an array)
    | MissingParam(action: string)  // `props` or `dest` missing (null passed for an array or a string)
    | DirFailure(error: FsError)    // `makeDir` threw while saving
    | Unreadable(path: string)      // the source file does not decode to a mapping

  /** The control signal of the pipeline: go on, stop the remaining rules (`skip`), or abort the run. */
  datatype Signal = Continue | Terminate | Abort(error: Error)

  datatype Detail = Skipped | PropsRemoved(lines: seq<PropReport>) | SavedAt(target: string) | Unknown

  /** The report entry of one executed action. */
  datatype ActionReport = ActionReport(action: string, detail: Detail)

  /** The report entry of one evaluated rule. */
  datatype RuleReport = Matched(description: string, actions: seq<ActionReport>) | NoMatch(description: string)

  datatype FileReport = FileReport(path: string, rules: seq<RuleReport>)

  /** The state threaded through a pipeline: signal, current document, report so far, file system. */
  datatype Run<R> = Run(signal: Signal, yaml: Document, report: seq<R>, disk: Disk)

  datatype BatchRun = BatchRun(signal: Signal, report: seq<FileReport>, disk: Disk)

  /** `preg_match(pattern, subject)` succeeding; the regex engine is a parameter of the model. */
  type Matcher = (string, string) -> bool

  /** A rule matches when it has no `match` list, or when some pattern of the list matches the path. */
  predicate RuleMatches(rule: Rule, matches: Matcher, path: string)
  {
    match rule.patterns
    case None => true
    case Some(ps) => exists i | 0 <= i < |ps| :: matches(ps[i], path)
  }

  /** One turn of the `processActions` loop, from a state whose signal is `Continue`. */
  function RunAction(action: Action, path: string, prev: Run<ActionReport>): Run<ActionReport>
  {
    if action.name == "skip" then
      prev.(signal := Terminate, report := prev.report + [ActionReport(action.name, Skipped)])
    else if action.name == "remove-props" then
      match action.params.props
      case None => prev.(signal := Abort(MissingParam(action.name)))
      case Some(props) =>
        prev.(yaml := Without(prev.yaml, Names(props)),
              report := prev.report + [ActionReport(action.name, PropsRemoved(PropReports(prev.yaml, props)))])
    else if action.name == "save" then
      match action.params.dest
      case None => prev.(signal := Abort(MissingParam(action.name)))
      case Some(dest) =>
        var (disk, st) := SaveEffect(prev.disk, dest, path, prev.yaml);
        if st.Failed? then prev.(signal := Abort(DirFailure(st.error)), disk := disk)
        else prev.(report := prev.report + [ActionReport(action.name, SavedAt(JoinPath(dest, path)))], disk := disk)
    else
      prev.(report := prev.report + [ActionReport(action.name, Unknown)])
  }

  /** `processActions`: the actions in order, until one stops or aborts the pipeline. */
  function RunActions(actions: seq<Action>, path: string, yaml: Document, disk: Disk): Run<ActionReport>
    decreases |actions|
  {
    if actions == [] then Run(Continue, yaml, [], disk)
    else
      var prev := RunActions(actions[..|actions| - 1], path, yaml, disk);
      if !prev.signal.Continue? then prev else RunAction(actions[|actions| - 1], path, prev)
  }

  /** One turn of the `processRules` loop, from a state whose signal is `Continue`. */
  function RunRule(rule: Rule, matches: Matcher, path: string, prev: Run<RuleReport>): Run<RuleReport>
  {
    if rule.hasAction && !rule.actions.Absent? then prev.(signal := Abort(BothActionKeys))
    else if !RuleMatches(rule, matches, path) then prev.(report := prev.report + [NoMatch(rule.description)])
    else if !rule.actions.ActionList? then prev.(signal := Abort(NoActions))
    else
      var run := RunActions(rule.actions.list, path, prev.yaml, prev.disk);
      if run.signal.Abort? then prev.(signal := run.signal, disk := run.disk)
      else Run(run.signal, run.yaml, prev.report + [Matched(rule.description, run.report)], run.disk)
  }

  /** The rule loop of `processRules`, from the loaded document. */
  function RunRules(rules: seq<Rule>, matches: Matcher, path: string, yaml: Document, disk: Disk): Run<RuleReport>
    decreases |rules|
  {
    if rules == [] then Run(Continue, yaml, [], disk)
    else
      var prev := RunRules(rules[..|rules| - 1], matches, path, yaml, disk);
      if !prev.signal.Continue? then prev else RunRule(rules[|rules| - 1], matches, path, prev)
  }

  /** `processRules` for one file: load it once from the source directory, then run the rules. */
  function RunFile(rules: seq<Rule>, matches: Matcher, sourceDir: string, path: string, disk: Disk): Run<RuleReport>
  {
    match Load(disk.nodes, JoinPath(sourceDir, path))
    case None => Run(Abort(Unreadable(JoinPath(sourceDir, path))), [], [], disk)
    case Some(yaml) => RunRules(rules, matches, path, yaml, disk)
  }

  /** `apply` over a given list of paths: each file in turn, until one aborts the run. */
  function RunBatch(rules: seq<Rule>, matches: Matcher, sourceDir: string, paths: seq<string>, disk: Disk): BatchRun
    decreases |paths|
  {
    if paths == [] then BatchRun(Continue, [], disk)
    else
      var prev := RunBatch(rules, matches, sourceDir, paths[..|paths| - 1], disk);
      if prev.signal.Abort? then prev
      else
        var path := paths[|paths| - 1];
        var run := RunFile(rules, matches, sourceDir, path, prev.disk);
        if run.signal.Abort? then BatchRun(run.signal, prev.report, run.disk)
        else BatchRun(Continue, prev.report + [FileReport(path, run.report)], run.disk)
  }

  // ---------------------------------------------------------------- actions

  /** Once the pipeline has stopped or aborted, the remaining actions are not evaluated. */
  lemma {:induction false} ActionsStopForGood(actions: seq<Action>, i: nat, path: string, yaml: Document, disk: Disk)
    requires i <= |actions| && !RunActions(actions[..i], path, yaml, disk).signal.Continue?
    ensures RunActions(actions, path, yaml, disk) == RunActions(actions[..i], path, yaml, disk)
    decreases |actions|
  {
    if i < |actions| {
      var init := actions[..|actions| - 1];
      assert init[..i] == actions[..i];
      ActionsStopForGood(init, i, path, yaml, disk);
    } else {
      assert actions[..i] == actions;
    }
  }

  /**
   * One action from a running pipeline: at most one report entry, naming the
   * action; a stop only on `skip`; an edit of the document only by
   * `remove-props`; a write only by `save`. It aborts exactly when `props` or
   * `dest` is missing (PHP passes null for an array or a string) or the save
   * fails; `skip`, `remove-props` with `props` and any other name never abort.
   */
  lemma ActionStep(action: Action, path: string, prev: Run<ActionReport>)
    requires prev.signal == Continue
    ensures var run := RunAction(action, path, prev);
      && (run.signal == Terminate <==> action.name == "skip")
      && (run.signal.Abort? ==> run.report == prev.report)
      && run.yaml == (if action.name == "remove-props" && action.params.props.Some?
                      then Without(prev.yaml, Names(action.params.props.value)) else prev.yaml)
      && (!run.signal.Abort? ==>
            exists detail :: run.report == prev.report + [ActionReport(action.name, detail)]
              && (detail == Skipped <==> action.name == "skip"))
      && (run.signal.Abort? <==>
            (action.name == "remove-props" && action.params.props.None?)
            || (action.name == "save" && (action.params.dest.None?
                  || SaveEffect(prev.disk, action.params.dest.value, path, prev.yaml).1.Failed?)))
      && (action.name != "save" ==> run.disk == prev.disk)
  {
  }

  /**
   * `report` follows `actions` entry by entry: each entry names the action at
   * its position, and says `Skipped` exactly for a `skip`.
   */
  predicate ReportsActions(report: seq<ActionReport>, actions: seq<Action>)
  {
    && |report| <= |actions|
    && forall k :: 0 <= k < |report| ==>
         report[k].action == actions[k].name && (report[k].detail == Skipped <==> actions[k].name == "skip")
  }

  lemma ReportsLongerActions(report: seq<ActionReport>, init: seq<Action>, actions: seq<Action>)
    requires ReportsActions(report, init) && init <= actions
    ensures ReportsActions(report, actions)
  {
    assert forall k :: 0 <= k < |init| ==> init[k] == actions[k];
  }

  lemma ReportsNextAction(init: seq<Action>, a: Action, path: string, prev: Run<ActionReport>)
    requires prev.signal == Continue && |prev.report| == |init| && ReportsActions(prev.report, init)
    ensures ReportsActions(RunAction(a, path, prev).report, init + [a])
  {
    ActionStep(a, path, prev);
    var run := RunAction(a, path, prev);
    var actions := init + [a];
    if run.signal.Abort? {
      ReportsLongerActions(prev.report, init, actions);
    } else {
      var detail :| run.report == prev.report + [ActionReport(a.name, detail)] && (detail == Skipped <==> a.name == "skip");
      forall k | 0 <= k < |run.report|
        ensures run.report[k].action == actions[k].name && (run.report[k].detail == Skipped <==> actions[k].name == "skip")
      {
        if k < |prev.report| {
          assert run.report[k] == prev.report[k] && actions[k] == init[k];
        }
      }
    }
  }

  /** Actions run strictly in mapping order: one report entry per executed action, in that order. */
  lemma {:induction false} ActionsInOrder(actions: seq<Action>, path: string, yaml: Document, disk: Disk)
    ensures ReportsActions(RunActions(actions, path, yaml, disk).report, actions)
    decreases |actions|
  {
    if actions != [] {
      var init := actions[..|actions| - 1];
      var prev := RunActions(init, path, yaml, disk);
      ActionsInOrder(init, path, yaml, disk);
      ActionsReportLength(init, path, yaml, disk);
      assert init + [actions[|actions| - 1]] == actions;
      if prev.signal.Continue? {
        ReportsNextAction(init, actions[|actions| - 1], path, prev);
      } else {
        ReportsLongerActions(prev.report, init, actions);
      }
    }
  }

  /**
   * A `skip` is always the last action executed, and it ends the pipeline
   * with `Terminate`; `Terminate` comes from nothing else.
   */
  lemma {:induction false} SkipEndsActions(actions: seq<Action>, path: string, yaml: Document, disk: Disk)
    ensures var run := RunActions(actions, path, yaml, disk); var n := |run.report|;
      && n <= |actions|
      && (forall k :: 0 <= k < n && actions[k].name == "skip" ==> k == n - 1 && run.signal == Terminate)
      && (run.signal == Terminate ==> 1 <= n && actions[n - 1].name == "skip")
    decreases |actions|
  {
    ActionsReportLength(actions, path, yaml, disk);
    if actions != [] {
      var init := actions[..|actions| - 1];
      var prev := RunActions(init, path, yaml, disk);
      SkipEndsActions(init, path, yaml, disk);
      ActionsReportLength(init, path, yaml, disk);
      assert forall k :: 0 <= k < |init| ==> init[k] == actions[k];
      if prev.signal.Continue? {
        ActionStep(actions[|actions| - 1], path, prev);
      }
    }
  }

  /** The keys named by the `remove-props` entries of `actions`. */
  function RemovedNames(actions: seq<Action>): set<string>
    decreases |actions|
  {
    if actions == [] then {}
    else
      var last := actions[|actions| - 1];
      RemovedNames(actions[..|actions| - 1])
        + (if last.name == "remove-props" && last.params.props.Some? then Names(last.params.props.value) else {})
  }

  /** A pipeline that is still running has executed, and reported, every action; an abort happens before the end. */
  lemma {:induction false} ActionsReportLength(actions: seq<Action>, path: string, yaml: Document, disk: Disk)
    ensures var run := RunActions(actions, path, yaml, disk);
      && |run.report| <= |actions|
      && (run.signal == Continue ==> |run.report| == |actions|)
      && (run.signal.Abort? ==> |run.report| < |actions|)
    decreases |actions|
  {
    if actions != [] {
      var init := actions[..|actions| - 1];
      ActionsReportLength(init, path, yaml, disk);
      if RunActions(init, path, yaml, disk).signal.Continue? {
        ActionStep(actions[|actions| - 1], path, RunActions(init, path, yaml, disk));
      }
    }
  }

  /**
   * The document leaving the pipeline is the incoming one without every key
   * named by the `remove-props` actions that ran; nothing else edits it.
   */
  lemma {:induction false} ActionsThreadDocument(actions: seq<Action>, path: string, yaml: Document, disk: Disk)
    ensures var run := RunActions(actions, path, yaml, disk);
      |run.report| <= |actions| && run.yaml == Without(yaml, RemovedNames(actions[..|run.report|]))
    decreases |actions|
  {
    ActionsReportLength(actions, path, yaml, disk);
    if actions == [] {
      WithoutNothingNamed(yaml, {});
    } else {
      var init := actions[..|actions| - 1];
      var a := actions[|actions| - 1];
      var prev := RunActions(init, path, yaml, disk);
      ActionsThreadDocument(init, path, yaml, disk);
      var n := |prev.report|;
      assert init[..n] == actions[..n];
      if prev.signal.Continue? {
        ActionsReportLength(init, path, yaml, disk);
        ActionStep(a, path, prev);
        var run := RunAction(a, path, prev);
        assert init[..n] == init;
        if !run.signal.Abort? {
          assert actions[..|run.report|] == actions;
          if a.name == "remove-props" && a.params.props.Some? {
            WithoutTwice(yaml, RemovedNames(init), Names(a.params.props.value));
          } else {
            assert RemovedNames(actions) == RemovedNames(init);
          }
        }
      }
    }
  }

  /** Only `save` touches the file system: a pipeline without one leaves it as it was. */
  lemma {:induction false} ActionsWithoutSaveKeepDisk(actions: seq<Action>, path: string, yaml: Document, disk: Disk)
    requires forall k :: 0 <= k < |actions| ==> actions[k].name != "save"
    ensures RunActions(actions, path, yaml, disk).disk == disk
    decreases |actions|
  {
    if actions != [] {
      ActionsWithoutSaveKeepDisk(actions[..|actions| - 1], path, yaml, disk);
    }
  }

  /**
   * A `save` persists the current, already edited document under
   * `dest`/path (unless a directory stands there), does not change the
   * document and does not stop the pipeline; only a directory failure aborts.
   */
  lemma SaveActionPersists(action: Action, path: string, prev: Run<ActionReport>)
    requires prev.signal == Continue && action.name == "save" && action.params.dest.Some?
    ensures var run := RunAction(action, path, prev); var target := JoinPath(action.params.dest.value, path);
      && run.yaml == prev.yaml
      && (run.signal == Continue || run.signal.Abort?)
      && (run.signal.Abort? <==> SaveEffect(prev.disk, action.params.dest.value, path, prev.yaml).1.Failed?)
      && (!run.signal.Abort? && !(target in prev.disk.nodes && prev.disk.nodes[target].Dir?) ==>
            Load(run.disk.nodes, target) == Some(prev.yaml)
            && run.disk.saved == prev.disk.saved + [Saved(action.params.dest.value, path, prev.yaml)])
  {
    var dest := action.params.dest.value;
    var (disk, st) := SaveEffect(prev.disk, dest, path, prev.yaml);
    SavePersists(prev.disk, dest, path, prev.yaml);
    var run := RunAction(action, path, prev);
    if st.Failed? {
      assert run == prev.(signal := Abort(DirFailure(st.error)), disk := disk);
    } else {
      assert run.signal == prev.signal && run.disk == disk && run.yaml == prev.yaml;
    }
  }

  // ---------------------------------------------------------------- rules

  /** A stop (`skip`) or an abort in one rule means no later rule is evaluated. */
  lemma {:induction false} SkipStopsLaterRules(rules: seq<Rule>, i: nat, matches: Matcher, path: string, yaml: Document, disk: Disk)
    requires i <= |rules| && !RunRules(rules[..i], matches, path, yaml, disk).signal.Continue?
    ensures RunRules(rules, matches, path, yaml, disk) == RunRules(rules[..i], matches, path, yaml, disk)
    decreases |rules|
  {
    if i < |rules| {
      var init := rules[..|rules| - 1];
      assert init[..i] == rules[..i];
      SkipStopsLaterRules(init, i, matches, path, yaml, disk);
    } else {
      assert rules[..i] == rules;
    }
  }

  /**
   * Rule `k` starts from what rule `k - 1` left. A rule carrying both the
   * `action` and the `actions` key (whatever their values) aborts, matching or
   * not, before any action runs; a non-matching rule leaves document and file
   * system unchanged; a matching rule whose `actions` is missing or not an
   * array aborts; a matching rule runs its actions on the current document, and
   * an abort inside them aborts the rule with the file system as they left it.
   */
  lemma RuleStep(rules: seq<Rule>, k: nat, matches: Matcher, path: string, yaml: Document, disk: Disk)
    requires k < |rules| && RunRules(rules[..k], matches, path, yaml, disk).signal.Continue?
    ensures var prev := RunRules(rules[..k], matches, path, yaml, disk);
      var rule := rules[k];
      var next := RunRules(rules[..k + 1], matches, path, yaml, disk);
      var conflict := rule.hasAction && !rule.actions.Absent?;
      && (conflict ==> next == prev.(signal := Abort(BothActionKeys)))
      && (!conflict && !RuleMatches(rule, matches, path) ==>
            next == prev.(report := prev.report + [NoMatch(rule.description)]))
      && (!conflict && RuleMatches(rule, matches, path) && !rule.actions.ActionList? ==>
            next == prev.(signal := Abort(NoActions)))
      && (!conflict && RuleMatches(rule, matches, path) && rule.actions.ActionList? ==>
            var run := RunActions(rule.actions.list, path, prev.yaml, prev.disk);
            && (run.signal.Abort? ==> next == prev.(signal := run.signal, disk := run.disk))
            && (!run.signal.Abort? ==> next == Run(run.signal, run.yaml, prev.report + [Matched(rule.description, run.report)], run.disk)))
  {
    assert rules[..k + 1][..k] == rules[..k];
  }

  function Description(r: RuleReport): string
  {
    match r
    case Matched(d, _) => d
    case NoMatch(d) => d
  }

  /** The report of a matched rule whose pipeline ended with a `skip`. */
  predicate EndsWithSkip(r: RuleReport)
  {
    r.Matched? && |r.actions| >= 1 && r.actions[|r.actions| - 1].detail == Skipped
  }

  /**
   * One rule from a running pipeline: at most one report entry, carrying the
   * rule's description and whether it matched; a stop only after a matched
   * rule whose actions ended with a `skip`.
   */
  lemma RuleReportStep(rule: Rule, matches: Matcher, path: string, prev: Run<RuleReport>)
    requires prev.signal == Continue
    ensures var run := RunRule(rule, matches, path, prev);
      && (run.signal.Abort? ==> run.report == prev.report)
      && (!run.signal.Abort? ==>
            exists r :: run.report == prev.report + [r]
              && Description(r) == rule.description
              && (r.Matched? <==> RuleMatches(rule, matches, path))
              && (run.signal == Terminate ==> EndsWithSkip(r)))
  {
    var run := RunRule(rule, matches, path, prev);
    if !(rule.hasAction && !rule.actions.Absent?) && RuleMatches(rule, matches, path) && rule.actions.ActionList? {
      var acts := RunActions(rule.actions.list, path, prev.yaml, prev.disk);
      if !acts.signal.Abort? {
        var r := Matched(rule.description, acts.report);
        assert run.report == prev.report + [r];
        if run.signal == Terminate {
          SkipEndsActions(rule.actions.list, path, prev.yaml, prev.disk);
          ActionsInOrder(rule.actions.list, path, prev.yaml, prev.disk);
          assert EndsWithSkip(r);
        }
      }
    }
  }

  /**
   * `report` follows `rules` entry by entry: each entry carries the
   * description of the rule at its position and says whether that rule matched.
   */
  predicate ReportsRules(report: seq<RuleReport>, rules: seq<Rule>, matches: Matcher, path: string)
  {
    && |report| <= |rules|
    && forall k :: 0 <= k < |report| ==>
         Description(report[k]) == rules[k].description && (report[k].Matched? <==> RuleMatches(rules[k], matches, path))
  }

  lemma ReportsLongerRules(report: seq<RuleReport>, init: seq<Rule>, rules: seq<Rule>, matches: Matcher, path: string)
    requires ReportsRules(report, init, matches, path) && init <= rules
    ensures ReportsRules(report, rules, matches, path)
  {
    assert forall k :: 0 <= k < |init| ==> init[k] == rules[k];
  }

  lemma ReportsNextRule(init: seq<Rule>, rule: Rule, matches: Matcher, path: string, prev: Run<RuleReport>)
    requires prev.signal == Continue && |prev.report| == |init| && ReportsRules(prev.report, init, matches, path)
    ensures var run := RunRule(rule, matches, path, prev);
      && ReportsRules(run.report, init + [rule], matches, path)
      && (run.signal.Abort? ==> |run.report| == |init|)
      && (!run.signal.Abort? ==> |run.report| == |init| + 1)
      && (run.signal == Terminate ==> EndsWithSkip(run.report[|init|]))
  {
    RuleReportStep(rule, matches, path, prev);
    var run := RunRule(rule, matches, path, prev);
    var rules := init + [rule];
    if run.signal.Abort? {
      ReportsLongerRules(prev.report, init, rules, matches, path);
    } else {
      var r :| run.report == prev.report + [r] && Description(r) == rule.description
        && (r.Matched? <==> RuleMatches(rule, matches, path)) && (run.signal == Terminate ==> EndsWithSkip(r));
      forall k | 0 <= k < |run.report|
        ensures Description(run.report[k]) == rules[k].description
        ensures run.report[k].Matched? <==> RuleMatches(rules[k], matches, path)
      {
        if k < |prev.report| {
          assert run.report[k] == prev.report[k] && rules[k] == init[k];
        }
      }
    }
  }

  /**
   * One report entry per evaluated rule, in rule order, saying whether the
   * rule matched. `Continue` means every rule was evaluated; `Terminate` means
   * the last evaluated rule matched and its pipeline ended with a `skip`; an
   * abort happens at the rule after the reported ones.
   */
  lemma {:induction false} RulesInOrder(rules: seq<Rule>, matches: Matcher, path: string, yaml: Document, disk: Disk)
    ensures var run := RunRules(rules, matches, path, yaml, disk); var n := |run.report|;
      && ReportsRules(run.report, rules, matches, path)
      && (run.signal == Continue ==> n == |rules|)
      && (run.signal == Terminate ==> n >= 1 && EndsWithSkip(run.report[n - 1]))
      && (run.signal.Abort? ==> n < |rules|)
    decreases |rules|
  {
    if rules != [] {
      var init := rules[..|rules| - 1];
      var prev := RunRules(init, matches, path, yaml, disk);
      RulesInOrder(init, matches, path, yaml, disk);
      assert init + [rules[|rules| - 1]] == rules;
      if prev.signal.Continue? {
        ReportsNextRule(init, rules[|rules| - 1], matches, path, prev);
      } else {
        ReportsLongerRules(prev.report, init, rules, matches, path);
      }
    }
  }

  /** With a `match` list, a pattern that does not match the path never changes the outcome, wherever it is added. */
  lemma NonMatchingPatternIrrelevant(rule: Rule, matches: Matcher, path: string, pattern: string, i: nat)
    requires rule.patterns.Some? && i <= |rule.patterns.value| && !matches(pattern, path)
    ensures var ps := rule.patterns.value;
      RuleMatches(rule.(patterns := Some(ps[..i] + [pattern] + ps[i..])), matches, path) == RuleMatches(rule, matches, path)
  {
    var ps := rule.patterns.value;
    var qs := ps[..i] + [pattern] + ps[i..];
    if RuleMatches(rule, matches, path) {
      var j :| 0 <= j < |ps| && matches(ps[j], path);
      if j < i {
        assert qs[j] == ps[j];
      } else {
        assert qs[j + 1] == ps[j];
      }
    }
    if RuleMatches(rule.(patterns := Some(qs)), matches, path) {
      var j :| 0 <= j < |qs| && matches(qs[j], path);
      if j < i {
        assert ps[j] == qs[j];
      } else {
        assert j > i && ps[j - 1] == qs[j];
      }
    }
  }

  /**
   * Edits made by an earlier rule are seen by a later one: a rule without
   * `match` removing `props`, followed by a rule without `match` saving to
   * `dest`, writes the document without those keys when the destination is
   * writable.
   */
  lemma RemoveThenSaveScenario(d1: string, d2: string, props: seq<string>, dest: string, other: Params,
                               matches: Matcher, path: string, yaml: Document, disk: Disk)
    requires Writable(disk.nodes, dest, path)
    ensures var rules := [Rule(d1, None, false, ActionList([Action("remove-props", other.(props := Some(props)))])),
                          Rule(d2, None, false, ActionList([Action("save", other.(dest := Some(dest)))]))];
      var run := RunRules(rules, matches, path, yaml, disk);
      && run.signal == Continue
      && run.disk.saved == disk.saved + [Saved(dest, path, Without(yaml, Names(props)))]
      && Load(run.disk.nodes, JoinPath(dest, path)) == Some(Without(yaml, Names(props)))
      && Keys(Without(yaml, Names(props))) !! Names(props)
  {
    var remove := Action("remove-props", other.(props := Some(props)));
    var save := Action("save", other.(dest := Some(dest)));
    var r1 := Rule(d1, None, false, ActionList([remove]));
    var r2 := Rule(d2, None, false, ActionList([save]));
    var start: Run<ActionReport> := Run(Continue, yaml, [], disk);
    var ruleStart: Run<RuleReport> := Run(Continue, yaml, [], disk);
    assert RunRules([], matches, path, yaml, disk) == ruleStart && RunActions([], path, yaml, disk) == start;
    assert [r1, r2][..1] == [r1] && [r1][..0] == [] && [remove][..0] == [] && [save][..0] == [];
    var edited := Without(yaml, Names(props));
    assert RunActions([remove], path, yaml, disk) == RunAction(remove, path, start);
    var first := RunRules([r1], matches, path, yaml, disk);
    assert first == RunRule(r1, matches, path, ruleStart);
    assert first.disk == disk && first.yaml == edited && first.signal == Continue;
    var second := Run(Continue, edited, [], disk);
    assert RunActions([save], path, edited, disk) == RunAction(save, path, second);
    SavePersists(disk, dest, path, edited);
    SaveActionPersists(save, path, second);
    WithoutEntries(yaml, Names(props));
  }

  /**
   * A `skip` in a matching first rule keeps an unconditional `save` in the
   * second rule from running: nothing is written. When the first rule does not
   * match and the destination is writable, the second rule saves the document.
   */
  lemma SkipThenSaveScenario(d1: string, d2: string, patterns: seq<string>, dest: string, params: Params,
                             matches: Matcher, path: string, yaml: Document, disk: Disk)
    ensures var rules := [Rule(d1, Some(patterns), false, ActionList([Action("skip", params)])),
                          Rule(d2, None, false, ActionList([Action("save", params.(dest := Some(dest)))]))];
      var run := RunRules(rules, matches, path, yaml, disk);
      && ((exists i :: 0 <= i < |patterns| && matches(patterns[i], path)) ==>
            run.signal == Terminate && run.disk == disk && run.report == [Matched(d1, [ActionReport("skip", Skipped)])])
      && (!(exists i :: 0 <= i < |patterns| && matches(patterns[i], path)) && Writable(disk.nodes, dest, path) ==>
            && run.signal == Continue
            && run.report == [NoMatch(d1), Matched(d2, [ActionReport("save", SavedAt(JoinPath(dest, path)))])]
            && run.disk.saved == disk.saved + [Saved(dest, path, yaml)]
            && Load(run.disk.nodes, JoinPath(dest, path)) == Some(yaml))
  {
    var skip := Action("skip", params);
    var save := Action("save", params.(dest := Some(dest)));
    var r1 := Rule(d1, Some(patterns), false, ActionList([skip]));
    var r2 := Rule(d2, None, false, ActionList([save]));
    var start: Run<ActionReport> := Run(Continue, yaml, [], disk);
    var ruleStart: Run<RuleReport> := Run(Continue, yaml, [], disk);
    assert RunRules([], matches, path, yaml, disk) == ruleStart && RunActions([], path, yaml, disk) == start;
    assert [r1, r2][..1] == [r1] && [r1][..0] == [] && [skip][..0] == [] && [save][..0] == [];
    assert RunActions([skip], path, yaml, disk) == RunAction(skip, path, start);
    var first := RunRules([r1], matches, path, yaml, disk);
    assert first == RunRule(r1, matches, path, ruleStart);
    if RuleMatches(r1, matches, path) {
      assert RunAction(skip, path, start) == Run(Terminate, yaml, [ActionReport("skip", Skipped)], disk);
      assert first == Run(Terminate, yaml, [Matched(d1, [ActionReport("skip", Skipped)])], disk);
    } else if Writable(disk.nodes, dest, path) {
      assert first == ruleStart.(report := [NoMatch(d1)]);
      var run := RunActions([save], path, yaml, disk);
      assert run == RunAction(save, path, start);
      SavePersists(disk, dest, path, yaml);
      SaveActionPersists(save, path, start);
      assert run.report == [ActionReport("save", SavedAt(JoinPath(dest, path)))];
    }
  }

  // ---------------------------------------------------------------- files

  /** Once a file has aborted the run, no later file is processed. */
  lemma {:induction false} AbortStopsBatch(rules: seq<Rule>, matches: Matcher, sourceDir: string, paths: seq<string>, i: nat, disk: Disk)
    requires i <= |paths| && RunBatch(rules, matches, sourceDir, paths[..i], disk).signal.Abort?
    ensures RunBatch(rules, matches, sourceDir, paths, disk) == RunBatch(rules, matches, sourceDir, paths[..i], disk)
    decreases |paths|
  {
    if i < |paths| {
      var init := paths[..|paths| - 1];
      assert init[..i] == paths[..i];
      AbortStopsBatch(rules, matches, sourceDir, init, i, disk);
    } else {
      assert paths[..i] == paths;
    }
  }

  /**
   * One file report per processed path, in the given order; a `skip` stops
   * only the rules of its own file, so a run either completes every path or
   * aborts.
   */
  lemma {:induction false} BatchInOrder(rules: seq<Rule>, matches: Matcher, sourceDir: string, paths: seq<string>, disk: Disk)
    ensures var run := RunBatch(rules, matches, sourceDir, paths, disk);
      && |run.report| <= |paths|
      && (forall k :: 0 <= k < |run.report| ==> run.report[k].path == paths[k])
      && (run.signal.Continue? || run.signal.Abort?)
      && (run.signal.Continue? ==> |run.report| == |paths|)
    decreases |paths|
  {
    if paths != [] {
      var init := paths[..|paths| - 1];
      BatchInOrder(rules, matches, sourceDir, init, disk);
      assert forall k :: 0 <= k < |init| ==> init[k] == paths[k];
    }
  }

  // ---------------------------------------------------------------- the processor

  class ConfigProcessor {
    /** `source-dir` of the settings file. */
    const configSourceDir: string
    /** `rules` of the settings file. */
    const rules: seq<Rule>
    /** The regex engine. */
    const matches: Matcher

    constructor (configSourceDir: string, rules: seq<Rule>, matches: Matcher)
      ensures this.configSourceDir == configSourceDir && this.rules == rules && this.matches == matches
    {
      this.configSourceDir := configSourceDir;
      this.rules := rules;
      this.matches := matches;
    }

    /** The match test of `processRules`: every pattern is tried, with no early exit. */
    method MatchRule(rule: Rule, filePath: string) returns (matched: bool)
      ensures matched <==> RuleMatches(rule, matches, filePath)
    {
      if rule.patterns.None? {
        return true;
      }
      var patterns := rule.patterns.value;
      matched := false;
      for i := 0 to |patterns|
        invariant matched <==> exists j :: 0 <= j < i && matches(patterns[j], filePath)
      {
        if matches(patterns[i], filePath) {
          matched := true;
        }
      }
    }

    /** `processActions`: run the actions of a matched rule in order. */
    method ProcessActions(fs: FileSystem, actions: seq<Action>, filePath: string, yaml: Document)
      returns (signal: Signal, result: Document, actionsReport: seq<ActionReport>)
      modifies fs
      ensures Run(signal, result, actionsReport, fs.State()) == RunActions(actions, filePath, yaml, old(fs.State()))
    {
      signal, result, actionsReport := Continue, yaml, [];
      var i := 0;
      while i < |actions|
        invariant 0 <= i <= |actions|
        invariant signal == Continue
        invariant Run(signal, result, actionsReport, fs.State()) == RunActions(actions[..i], filePath, yaml, old(fs.State()))
      {
        var action := actions[i];
        ghost var prev := Run(signal, result, actionsReport, fs.State());
        assert actions[..i + 1][..i] == actions[..i];
        if action.name == "skip" {
          actionsReport := actionsReport + [ActionReport(action.name, Skipped)];
          signal := Terminate;
        } else if action.name == "remove-props" {
          if action.params.props.None? {
            signal := Abort(MissingParam(action.name));
          } else {
            var edited, lines := RemoveProps(result, action.params.props.value);
            result := edited;
            actionsReport := actionsReport + [ActionReport(action.name, PropsRemoved(lines))];
          }
        } else if action.name == "save" {
          if action.params.dest.None? {
            signal := Abort(MissingParam(action.name));
          } else {
            var st, target := SaveYaml(fs, action.params.dest.value, filePath, result);
            if st.Failed? {
              signal := Abort(DirFailure(st.error));
            } else {
              actionsReport := actionsReport + [ActionReport(action.name, SavedAt(target))];
            }
          }
        } else {
          actionsReport := actionsReport + [ActionReport(action.name, Unknown)];
        }
        assert Run(signal, result, actionsReport, fs.State()) == RunAction(action, filePath, prev);
        i := i + 1;
        if !signal.Continue? {
          break;
        }
      }
      if !signal.Continue? {
        ActionsStopForGood(actions, i, filePath, yaml, old(fs.State()));
      } else {
        assert actions[..i] == actions;
      }
    }

    /** `processRules`: load the file once, then evaluate the rules in order until one stops them. */
    method ProcessRules(fs: FileSystem, filePathFromSourceDir: string) returns (signal: Signal, rulesReport: seq<RuleReport>)
      modifies fs
      ensures var run := RunFile(rules, matches, configSourceDir, filePathFromSourceDir, old(fs.State()));
        signal == run.signal && rulesReport == run.report && fs.State() == run.disk
    {
      var loaded := Load(fs.nodes, JoinPath(configSourceDir, filePathFromSourceDir));
      if loaded.None? {
        return Abort(Unreadable(JoinPath(configSourceDir, filePathFromSourceDir))), [];
      }
      var yaml := loaded.value;
      signal, rulesReport := Continue, [];
      var i := 0;
      while i < |rules|
        invariant 0 <= i <= |rules|
        invariant signal == Continue
        invariant Run(signal, yaml, rulesReport, fs.State()) == RunRules(rules[..i], matches, filePathFromSourceDir, loaded.value, old(fs.State()))
      {
        var rule := rules[i];
        ghost var prev := Run(signal, yaml, rulesReport, fs.State());
        assert rules[..i + 1][..i] == rules[..i];
        if rule.hasAction && !rule.actions.Absent? {
          signal := Abort(BothActionKeys);
        } else {
          var matched := MatchRule(rule, filePathFromSourceDir);
          if !matched {
            rulesReport := rulesReport + [NoMatch(rule.description)];
          } else if !rule.actions.ActionList? {
            signal := Abort(NoActions);
          } else {
            var actionsSignal, edited, actionsReport := ProcessActions(fs, rule.actions.list, filePathFromSourceDir, yaml);
            signal := actionsSignal;
            if !actionsSignal.Abort? {
              yaml := edited;
              rulesReport := rulesReport + [Matched(rule.description, actionsReport)];
            }
          }
        }
        assert Run(signal, yaml, rulesReport, fs.State()) == RunRule(rule, matches, filePathFromSourceDir, prev);
        i := i + 1;
        if !signal.Continue? {
          break;
        }
      }
      if !signal.Continue? {
        SkipStopsLaterRules(rules, i, matches, filePathFromSourceDir, loaded.value, old(fs.State()));
      } else {
        assert rules[..i] == rules;
      }
    }

    /** `apply`, over a given file list: process each file in turn. */
    method Apply(fs: FileSystem, fileList: seq<string>) returns (signal: Signal, fileReports: seq<FileReport>)
      modifies fs
      ensures BatchRun(signal, fileReports, fs.State()) == RunBatch(rules, matches, configSourceDir, fileList, old(fs.State()))
    {
      signal, fileReports := Continue, [];
      var i := 0;
      while i < |fileList|
        invariant 0 <= i <= |fileList|
        invariant signal == Continue
        invariant BatchRun(signal, fileReports, fs.State()) == RunBatch(rules, matches, configSourceDir, fileList[..i], old(fs.State()))
      {
        var path := fileList[i];
        assert fileList[..i + 1][..i] == fileList[..i];
        var fileSignal, rulesReport := ProcessRules(fs, path);
        if fileSignal.Abort? {
          signal := fileSignal;
        } else {
          fileReports := fileReports + [FileReport(path, rulesReport)];
        }
        i := i + 1;
        if signal.Abort? {
          break;
        }
      }
      if signal.Abort? {
        AbortStopsBatch(rules, matches, configSourceDir, fileList, i, old(fs.State()));
      } else {
        assert fileList[..i] == fileList;
      }
    }
  }
}
