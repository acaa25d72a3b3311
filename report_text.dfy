/**
 * The text of the verbose report: the lines `processActions` builds for each
 * executed action and `processRules` for each evaluated rule, with their
 * placeholders filled in by `strVar`. Indentation is `VERBOSE_INDENT` ("  ")
 * repeated: two levels for an action header, three for its detail line, one
 * for a rule line.
 */
module ReportText {
  import opened PhpStrings
  import opened MiscHelper
  import opened YamlHelper
  import opened ConfigProcessing

  /** `ConfigProcessor::VERBOSE_INDENT`. */
  const Indent := "  "
  const ActionKey := "@action"
  const HeaderPrefix := Indent + Indent + "- Action = "
  const ActionHeader := HeaderPrefix + ActionKey
  const SkipLine := Indent + Indent + Indent + "[Break next actions and skip to next file]"
  const UnknownPrefix := Indent + Indent + Indent + "[Unkown action \""
  const UnknownLine := UnknownPrefix + ActionKey + "\"]"
  const DescriptionKey := "@description"
  const MatchLine := Indent + "! Match rule \"" + DescriptionKey + "\""
  const NoMatchLine := Indent + "X No match rule \"" + DescriptionKey + "\""

  /** `removeProps`' report line for one property (the source spells the miss "not fount"). */
  function PropLine(r: PropReport): string
  {
    StrVar(Text("Remove property @prop : @found"), [("@prop", r.prop), ("@found", if r.found then "found" else "not fount")])
  }

  function PropLines(lines: seq<PropReport>): seq<string>
  {
    seq(|lines|, i requires 0 <= i < |lines| => PropLine(lines[i]))
  }

  /** `saveYaml`'s report line. */
  function SaveLine(target: string): string
  {
    StrVar(Text("save \"@target_path\""), [("@target_path", target)])
  }

  /** The detail line `processActions` appends after the header of an action. */
  function DetailLine(detail: Detail): string
  {
    match detail
    case Skipped => SkipLine
    case PropsRemoved(lines) => Indent + Indent + Indent + "- " + Implode("\n" + Indent + Indent + Indent + "- ", PropLines(lines))
    case SavedAt(target) => Indent + Indent + Indent + "- " + Indent + Indent + Indent + "- " + SaveLine(target)
    case Unknown => UnknownLine
  }

  /** The template lines one executed action contributes. */
  function Template(r: ActionReport): seq<string>
  {
    [ActionHeader, DetailLine(r.detail)]
  }

  /** The template lines of several executed actions, in order. */
  function Templates(rs: seq<ActionReport>): seq<string>
    decreases |rs|
  {
    if rs == [] then [] else Templates(rs[..|rs| - 1]) + Template(rs[|rs| - 1])
  }

  /**
   * The action report entries as `processActions` builds them: `$actionReport`
   * is never reset, so entry `k` substitutes the name of action `k` into the
   * template lines of actions `0..k` together.
   */
  function AccumulatedActionsReport(rs: seq<ActionReport>): (entries: seq<string>)
    ensures |entries| == |rs|
  {
    seq(|rs|, k requires 0 <= k < |rs| => StrVar(Lines(Templates(rs[..k + 1])), [(ActionKey, rs[k].action)]))
  }

  /** The report entry of one action: its own template lines, its own name. */
  function ActionText(r: ActionReport): string
  {
    StrVar(Lines(Template(r)), [(ActionKey, r.action)])
  }

  /** The action report entries with `$actionReport` started afresh for each action. */
  function ActionsReportText(rs: seq<ActionReport>): (entries: seq<string>)
    ensures |entries| == |rs|
  {
    seq(|rs|, k requires 0 <= k < |rs| => ActionText(rs[k]))
  }

  /** The report text of one evaluated rule: its line, then (when it matched) its action entries. */
  function RuleText(r: RuleReport): string
  {
    match r
    case Matched(d, actions) => StrVar(Lines([MatchLine, Implode("\n", ActionsReportText(actions))]), [(DescriptionKey, d)])
    case NoMatch(d) => StrVar(Text(NoMatchLine), [(DescriptionKey, d)])
  }

  /** The header of an action's entry: its name after "- Action = ", on a line of its own. */
  function HeaderFor(name: string): string
  {
    HeaderPrefix + name + "\n"
  }

  /** `strVar` with a single pair is one `str_replace`. */
  lemma StrVarOnePair(input: Input, key: string, value: string)
    ensures StrVar(input, [(key, value)]) == ReplaceAll(Subject(input), key, value)
  {
    var once := ReplaceAll(Subject(input), key, value);
    assert [(key, value)][1..] == [];
    assert ReplaceEach(Subject(input), [(key, value)]) == ReplaceEach(once, []);
  }

  lemma ActionTextSplit(r: ActionReport)
    ensures ActionText(r) == HeaderFor(r.action) + ReplaceAll(DetailLine(r.detail), ActionKey, r.action)
  {
    var name, detail := r.action, DetailLine(r.detail);
    UnknownPiecesArePlain();
    StrVarOnePair(Lines(Template(r)), ActionKey, name);
    ImplodeTwo(Template(r));
    HeaderRegrouped(HeaderPrefix, ActionKey, detail);
    ReplaceAllPlainThenMatch(HeaderPrefix, "\n" + detail, ActionKey, name);
    ReplaceAllPlainPrefix("\n", detail, ActionKey, name);
    HeaderRegrouped(HeaderPrefix, name, ReplaceAll(detail, ActionKey, name));
  }

  // Only regroups `+`: keeps this step out of proofs where `ReplaceAll` is unfolded.
  lemma HeaderRegrouped(p: string, x: string, rest: string)
    ensures (p + x) + "\n" + rest == p + x + ("\n" + rest)
    ensures p + x + ("\n" + rest) == p + x + "\n" + rest
  {
  }

  /**
   * Each entry of the per-action report opens with the header of its own
   * action. A `skip` entry and an unknown action's entry read in full as below.
   */
  lemma ActionEntriesNameTheirAction(rs: seq<ActionReport>)
    ensures forall k :: 0 <= k < |rs| ==> HeaderFor(rs[k].action) <= ActionsReportText(rs)[k]
    ensures forall k :: 0 <= k < |rs| && rs[k].detail == Skipped ==>
      ActionsReportText(rs)[k] == HeaderFor(rs[k].action) + SkipLine
    ensures forall k :: 0 <= k < |rs| && rs[k].detail == Unknown ==>
      ActionsReportText(rs)[k] == HeaderFor(rs[k].action) + UnknownPrefix + rs[k].action + "\"]"
  {
    forall k | 0 <= k < |rs|
      ensures HeaderFor(rs[k].action) <= ActionsReportText(rs)[k]
      ensures rs[k].detail == Skipped ==> ActionsReportText(rs)[k] == HeaderFor(rs[k].action) + SkipLine
      ensures rs[k].detail == Unknown ==>
        ActionsReportText(rs)[k] == HeaderFor(rs[k].action) + UnknownPrefix + rs[k].action + "\"]"
    {
      SkipText(rs[k]);
      if rs[k].detail == Unknown {
        UnknownText(rs[k]);
      }
    }
  }

  lemma SkipLineIsPlain()
    ensures ActionKey[0] !in SkipLine
  {
    assert ActionKey[0] !in "[Break next actions and skip to next file]";
  }

  lemma SkipText(r: ActionReport)
    ensures HeaderFor(r.action) <= ActionText(r)
    ensures r.detail == Skipped ==> ActionText(r) == HeaderFor(r.action) + SkipLine
  {
    ActionTextSplit(r);
    if r.detail == Skipped {
      SkipLineIsPlain();
      ReplaceAllPlainPrefix(SkipLine, "", ActionKey, r.action);
      assert SkipLine + "" == SkipLine;
    }
  }

  lemma UnknownText(r: ActionReport)
    requires r.detail == Unknown
    ensures ActionText(r) == HeaderFor(r.action) + UnknownPrefix + r.action + "\"]"
  {
    UnknownPiecesArePlain();
    StrVarOnePair(Lines(Template(r)), ActionKey, r.action);
    ImplodeTwo(Template(r));
    ReplaceInUnknownTemplates(HeaderPrefix, UnknownPrefix, "\"]", ActionKey, r.action);
  }

  /**
   * Substitution in the joined lines of one or two unknown-action templates,
   * for any texts around the placeholder that cannot start it.
   */
  lemma ReplaceInUnknownTemplates(p1: string, u1: string, u2: string, k: string, n: string)
    requires k != [] && k[0] !in p1 && k[0] !in "\n" + u1 && k[0] !in u2 && k[0] !in u2 + "\n" + p1
    ensures ReplaceAll((p1 + k) + "\n" + (u1 + k + u2), k, n) == p1 + n + "\n" + u1 + n + u2
    ensures ReplaceAll((p1 + k) + "\n" + (u1 + k + u2) + "\n" + (p1 + k) + "\n" + (u1 + k + u2), k, n)
         == (p1 + n + "\n" + u1 + n + u2) + "\n" + (p1 + n + "\n" + u1 + n + u2)
  {
    var nu1, u2p1 := "\n" + u1, u2 + "\n" + p1;
    ReplaceAllPlainPrefix(u2, "", k, n);
    assert u2 + "" == u2;
    ReplaceAllPlainThenMatch(nu1, u2, k, n);
    ReplaceAllPlainThenMatch(p1, nu1 + k + u2, k, n);
    ReplaceAllPlainThenMatch(u2p1, nu1 + k + u2, k, n);
    ReplaceAllPlainThenMatch(nu1, u2p1 + k + (nu1 + k + u2), k, n);
    ReplaceAllPlainThenMatch(p1, nu1 + k + (u2p1 + k + (nu1 + k + u2)), k, n);
    Regrouped(p1, u1, u2, k);
    Regrouped(p1, u1, u2, n);
  }

  /**
   * The two groupings of the joined lines used above. Only regroups `+`: keeps
   * this step out of proofs where `ReplaceAll` is unfolded.
   */
  lemma Regrouped(p1: string, u1: string, u2: string, x: string)
    ensures (p1 + x) + "\n" + (u1 + x + u2) + "\n" + (p1 + x) + "\n" + (u1 + x + u2)
         == p1 + x + (("\n" + u1) + x + ((u2 + "\n" + p1) + x + (("\n" + u1) + x + u2)))
    ensures p1 + x + (("\n" + u1) + x + ((u2 + "\n" + p1) + x + (("\n" + u1) + x + u2)))
         == (p1 + x + "\n" + u1 + x + u2) + "\n" + (p1 + x + "\n" + u1 + x + u2)
    ensures (p1 + x) + "\n" + (u1 + x + u2) == p1 + x + (("\n" + u1) + x + u2)
    ensures p1 + x + (("\n" + u1) + x + u2) == p1 + x + "\n" + u1 + x + u2
  {
  }

  /**
   * As built by `processActions`, the entry of the second of two unknown
   * actions repeats the lines of the first action under the second one's
   * name: the first action's name is lost from it and the second is reported
   * twice. The first entry is unaffected.
   */
  lemma AccumulatedReportRepeatsEarlierAction(first: string, second: string)
    ensures var rs := [ActionReport(first, Unknown), ActionReport(second, Unknown)];
      && AccumulatedActionsReport(rs)[0] == ActionsReportText(rs)[0]
      && AccumulatedActionsReport(rs)[1] == ActionText(rs[1]) + "\n" + ActionText(rs[1])
      && ActionsReportText(rs)[1] == ActionText(rs[1])
      && AccumulatedActionsReport(rs)[1] != ActionsReportText(rs)[1]
  {
    var r0, r1 := ActionReport(first, Unknown), ActionReport(second, Unknown);
    var rs := [r0, r1];
    assert rs[..1] == [r0] && rs[..2] == rs && [r0][..0] == [];
    assert Templates([r0]) == Template(r0);
    var lines := [ActionHeader, UnknownLine, ActionHeader, UnknownLine];
    assert Templates(rs) == lines;
    ImplodeFour(lines);
    ImplodeTwo(Template(r1));
    var p1, u1, u2 := HeaderPrefix, UnknownPrefix, "\"]";
    UnknownPiecesArePlain();
    StrVarOnePair(Lines(lines), ActionKey, second);
    StrVarOnePair(Lines(Template(r1)), ActionKey, second);
    ReplaceInUnknownTemplates(p1, u1, u2, ActionKey, second);
  }

  /** The literal parts of the header and of the unknown-action line never start the placeholder. */
  lemma UnknownPiecesArePlain()
    ensures var p1, u1, u2 := HeaderPrefix, UnknownPrefix, "\"]";
      ActionKey[0] !in p1 && ActionKey[0] !in "\n" && ActionKey[0] !in "\n" + u1 && ActionKey[0] !in u2 && ActionKey[0] !in u2 + "\n" + p1
  {
  }

  /**
   * A rule's text opens with its own description: in full for a rule that did
   * not match, followed by a new line and the action entries for one that did.
   */
  lemma RuleTextNamesRule(r: RuleReport)
    ensures r.NoMatch? ==> RuleText(r) == Indent + "X No match rule \"" + r.description + "\""
    ensures r.Matched? ==> Indent + "! Match rule \"" + r.description + "\"\n" <= RuleText(r)
  {
    if r.NoMatch? {
      NoMatchText(r.description);
    } else {
      MatchText(r.description, Implode("\n", ActionsReportText(r.actions)));
    }
  }

  lemma RulePiecesArePlain()
    ensures DescriptionKey[0] !in Indent + "X No match rule \"" && DescriptionKey[0] !in Indent + "! Match rule \""
    ensures DescriptionKey[0] !in "\"" && DescriptionKey[0] !in "\"\n"
  {
  }

  lemma NoMatchText(d: string)
    ensures StrVar(Text(NoMatchLine), [(DescriptionKey, d)]) == Indent + "X No match rule \"" + d + "\""
  {
    RulePiecesArePlain();
    var k := DescriptionKey;
    StrVarOnePair(Text(NoMatchLine), k, d);
    ReplaceAllPlainThenMatch(Indent + "X No match rule \"", "\"", k, d);
    ReplaceAllPlainPrefix("\"", "", k, d);
    assert "\"" + "" == "\"";
  }

  lemma MatchText(d: string, actions: string)
    ensures Indent + "! Match rule \"" + d + "\"\n" <= StrVar(Lines([MatchLine, actions]), [(DescriptionKey, d)])
  {
    RulePiecesArePlain();
    var k := DescriptionKey;
    StrVarOnePair(Lines([MatchLine, actions]), k, d);
    ImplodeTwo([MatchLine, actions]);
    MatchRegrouped(Indent + "! Match rule \"", k, actions);
    ReplaceAllPlainThenMatch(Indent + "! Match rule \"", "\"\n" + actions, k, d);
    ReplaceAllPlainPrefix("\"\n", actions, k, d);
    MatchRegrouped(Indent + "! Match rule \"", d, ReplaceAll(actions, k, d));
  }

  // Only regroups `+`: keeps this step out of proofs where `ReplaceAll` is unfolded.
  lemma MatchRegrouped(a: string, x: string, rest: string)
    ensures (a + x + "\"") + "\n" + rest == a + x + ("\"\n" + rest)
    ensures a + x + ("\"\n" + rest) == a + x + "\"\n" + rest
  {
  }

  lemma ImplodeTwo(lines: seq<string>)
    requires |lines| == 2
    ensures Implode("\n", lines) == lines[0] + "\n" + lines[1]
  {
    assert Implode("\n", lines[1..]) == lines[1];
  }

  lemma ImplodeFour(lines: seq<string>)
    requires |lines| == 4
    ensures Implode("\n", lines) == lines[0] + "\n" + lines[1] + "\n" + lines[2] + "\n" + lines[3]
  {
    ImplodeSnoc("\n", [lines[0]], lines[1]);
    ImplodeSnoc("\n", [lines[0], lines[1]], lines[2]);
    ImplodeSnoc("\n", [lines[0], lines[1], lines[2]], lines[3]);
    assert [lines[0], lines[1], lines[2]] + [lines[3]] == lines;
  }
}
