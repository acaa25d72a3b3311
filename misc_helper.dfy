/**
 * `MiscHelper::strVar`: placeholder substitution in report templates.
 */
module MiscHelper {
  import opened PhpStrings

  /** The PHP `string|array` input: one string, or lines to be joined. */
  datatype Input = Text(text: string) | Lines(lines: seq<string>)

  /** The subject `strVar` works on: array input joined with "\n". */
  function Subject(input: Input): string
  {
    match input
    case Text(s) => s
    case Lines(ls) => Implode("\n", ls)
  }

  /**
   * `str_replace(array_keys($vars), array_values($vars), subject)`: each
   * (key, value) pair in map order replaces all occurrences of the key in the
   * output of the previous pair.
   */
  function ReplaceEach(subject: string, vars: seq<(string, string)>): string
    decreases |vars|
  {
    if vars == [] then subject
    else ReplaceEach(ReplaceAll(subject, vars[0].0, vars[0].1), vars[1..])
  }

  function StrVar(input: Input, vars: seq<(string, string)>): string
  {
    ReplaceEach(Subject(input), vars)
  }

  /** The last pair runs on the output of all the earlier pairs. */
  lemma {:induction false} StrVarSequential(input: Input, vars: seq<(string, string)>, key: string, value: string)
    ensures StrVar(input, vars + [(key, value)]) == ReplaceAll(StrVar(input, vars), key, value)
  {
    ReplaceEachSnoc(Subject(input), vars, key, value);
  }

  lemma {:induction false} ReplaceEachSnoc(subject: string, vars: seq<(string, string)>, key: string, value: string)
    ensures ReplaceEach(subject, vars + [(key, value)]) == ReplaceAll(ReplaceEach(subject, vars), key, value)
    decreases |vars|
  {
    if vars != [] {
      assert (vars + [(key, value)])[1..] == vars[1..] + [(key, value)];
      ReplaceEachSnoc(ReplaceAll(subject, vars[0].0, vars[0].1), vars[1..], key, value);
    }
  }

  /** An input that contains none of the keys is returned as it is (joined). */
  lemma {:induction false} StrVarWithoutPlaceholders(input: Input, vars: seq<(string, string)>)
    requires forall i :: 0 <= i < |vars| ==> !Contains(Subject(input), vars[i].0)
    ensures StrVar(input, vars) == Subject(input)
  {
    ReplaceEachAbsent(Subject(input), vars);
  }

  lemma {:induction false} ReplaceEachAbsent(subject: string, vars: seq<(string, string)>)
    requires forall i :: 0 <= i < |vars| ==> !Contains(subject, vars[i].0)
    ensures ReplaceEach(subject, vars) == subject
    decreases |vars|
  {
    if vars != [] {
      ReplaceAllAbsent(subject, vars[0].0, vars[0].1);
      assert forall i :: 0 <= i < |vars[1..]| ==> vars[1..][i] == vars[i + 1];
      ReplaceEachAbsent(subject, vars[1..]);
    }
  }

  /** Each line after the first adds "\n" and the line to the text that is substituted. */
  lemma LinesJoinedByNewline(lines: seq<string>, line: string, vars: seq<(string, string)>)
    requires |lines| >= 1
    ensures StrVar(Lines(lines + [line]), vars) == StrVar(Text(Implode("\n", lines) + "\n" + line), vars)
  {
    ImplodeSnoc("\n", lines, line);
  }
}
