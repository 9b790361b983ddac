/**
 * The plugin's `output`: one monitoring status line built from a program
 * name, a label, extra lines and perfdata, together with the exit code the
 * process ends with. Perfdata values arrive already rendered as text, and
 * the perfdata dictionary is an ordered sequence of key/value pairs.
 */
module StatusLine {
  import opened Wrappers
  import opened Text

  /** What one call of `output` produces: the printed line and the exit status. */
  datatype Report = Report(line: string, exitCode: int)

  /** The name `output` uses when its caller gives none. */
  const DefaultName: string := "Tinkerforge"

  /** One perfdata entry: `'key'=value`. */
  function PerfEntry(key: string, value: string): (r: string)
    ensures |r| == |key| + |value| + 3
    ensures r[0] == '\'' && r[1..|key| + 1] == key && r[|key| + 1] == '\''
    ensures r[|key| + 2] == '=' && r[|key| + 3..] == value
  {
    "'" + key + "'" + "=" + value
  }

  function PerfEntries(perf: seq<(string, string)>): seq<string> {
    seq(|perf|, i requires 0 <= i < |perf| => PerfEntry(perf[i].0, perf[i].1))
  }

  /** The part of the line before the perfdata: `name: label`, then ` - ` and the lines when there are any. */
  function StatusPart(name: string, labelText: string, lines: seq<string>): (r: string)
    ensures name + ": " + labelText <= r
    ensures |r| == |name + ": " + labelText| <==> |lines| == 0
    ensures |lines| > 0 ==> name + ": " + labelText + " - " <= r
  {
    name + ": " + labelText + (if |lines| > 0 then " - " + Join(" ", lines) else "")
  }

  /** The whole line: the status part, then `|` and the entries joined by single spaces when there is perfdata. */
  function Render(name: string, labelText: string, lines: seq<string>, perf: seq<(string, string)>): (r: string)
    ensures StatusPart(name, labelText, lines) <= r
    ensures |r| == |StatusPart(name, labelText, lines)| <==> |perf| == 0
    ensures |perf| > 0 ==> r[|StatusPart(name, labelText, lines)|] == '|'
  {
    StatusPart(name, labelText, lines) + (if |perf| > 0 then "|" + Join(" ", PerfEntries(perf)) else "")
  }

  /** `output(labelText, state=0, lines=None, perfdata=None, name='Tinkerforge')`; None stands for the empty list and dict. */
  function Output(labelText: string, state: int := 0, lines: Option<seq<string>> := None,
                  perfdata: Option<seq<(string, string)>> := None, name: string := DefaultName): (r: Report)
    ensures r.exitCode == state
  {
    Report(Render(name, labelText, lines.GetOr([]), perfdata.GetOr([])), state)
  }

  // ----- Reading a status line back, as a monitoring system does -----

  /** The text before the first `|`. */
  function StatusText(line: string): string {
    line[..IndexOf(line, '|')]
  }

  /** Reads one `'key'=value` entry. */
  function ParseEntry(e: string): Option<(string, string)> {
    if |e| == 0 || e[0] != '\'' then None
    else
      var rest := e[1..];
      var k := IndexOf(rest, '\'');
      if k + 1 < |rest| && rest[k + 1] == '=' then Some((rest[..k], rest[k + 2..])) else None
  }

  function ParseEntries(parts: seq<string>): Option<seq<(string, string)>>
    decreases |parts|
  {
    if |parts| == 0 then Some([])
    else
      match (ParseEntry(parts[0]), ParseEntries(parts[1..]))
      case (Some(p), Some(ps)) => Some([p] + ps)
      case _ => None
  }

  /** The perfdata of a line: nothing without a `|`, else the space-separated entries after the first `|`. */
  function ParsePerfdata(line: string): Option<seq<(string, string)>> {
    var k := IndexOf(line, '|');
    if k == |line| then Some([]) else ParseEntries(Split(line[k + 1..], ' '))
  }

  /** A key without quotes and a value read back from their entry. */
  lemma ParseEntryRoundTrip(key: string, value: string)
    requires '\'' !in key
    ensures ParseEntry(PerfEntry(key, value)) == Some((key, value))
  {
    var e := PerfEntry(key, value);
    var rest := e[1..];
    assert rest == key + "'" + ("=" + value);
    IndexOfAfter(key, '\'', "=" + value);
    var k := |key|;
    assert rest[k + 1] == '=';
    assert rest[..k] == key;
    assert rest[k + 2..] == value;
  }

  lemma {:induction false} ParseEntriesRoundTrip(perf: seq<(string, string)>)
    requires forall i :: 0 <= i < |perf| ==> '\'' !in perf[i].0
    ensures ParseEntries(PerfEntries(perf)) == Some(perf)
    decreases |perf|
  {
    if |perf| > 0 {
      var es := PerfEntries(perf);
      ParseEntryRoundTrip(perf[0].0, perf[0].1);
      assert es[0] == PerfEntry(perf[0].0, perf[0].1);
      assert es[1..] == PerfEntries(perf[1..]);
      ParseEntriesRoundTrip(perf[1..]);
      assert perf == [perf[0]] + perf[1..];
    }
  }

  lemma PerfEntriesPlain(perf: seq<(string, string)>)
    requires forall i :: 0 <= i < |perf| ==> ' ' !in perf[i].0 && ' ' !in perf[i].1
    ensures forall i :: 0 <= i < |perf| ==> ' ' !in PerfEntries(perf)[i]
  {
  }

  /** When the name, the labelText and the lines hold no `|`, the first `|` of the line is where the perfdata starts. */
  lemma StatusPartHasNoBar(name: string, labelText: string, lines: seq<string>)
    requires '|' !in name && '|' !in labelText
    requires forall i :: 0 <= i < |lines| ==> '|' !in lines[i]
    ensures '|' !in StatusPart(name, labelText, lines)
  {
    JoinContains(" ", lines, '|');
  }

  /** Every line begins with `name: labelText`. */
  lemma OutputBeginsWithNameAndLabel(labelText: string, state: int, lines: Option<seq<string>>,
                                     perfdata: Option<seq<(string, string)>>, name: string)
    ensures var line := Output(labelText, state, lines, perfdata, name).line;
      |name + ": " + labelText| <= |line| && line[..|name + ": " + labelText|] == name + ": " + labelText
  {
  }

  /** None for the lines or the perfdata prints exactly what an empty list or dict prints; state defaults to 0 and name to "Tinkerforge". */
  lemma OutputNoneIsEmpty(labelText: string, state: int, lines: Option<seq<string>>,
                          perfdata: Option<seq<(string, string)>>, name: string)
    ensures Output(labelText, state, None, perfdata, name) == Output(labelText, state, Some([]), perfdata, name)
    ensures Output(labelText, state, lines, None, name) == Output(labelText, state, lines, Some([]), name)
    ensures Output(labelText) == Report(DefaultName + ": " + labelText, 0)
  {
  }

  /**
   * A reader who cuts the line at its first `|` finds the status part before it
   * and the perfdata after it: a `|` appears exactly when there is perfdata,
   * and splitting on spaces and reading each entry gives back every pair in
   * order. This needs the name, labelText and lines to hold no `|`, the keys no
   * quote and no space, and the values no space.
   */
  lemma OutputRoundTrip(labelText: string, state: int, lines: Option<seq<string>>,
                        perfdata: Option<seq<(string, string)>>, name: string)
    requires '|' !in name && '|' !in labelText
    requires forall i :: 0 <= i < |lines.GetOr([])| ==> '|' !in lines.GetOr([])[i]
    requires forall i :: 0 <= i < |perfdata.GetOr([])| ==>
      '\'' !in perfdata.GetOr([])[i].0 && ' ' !in perfdata.GetOr([])[i].0 && ' ' !in perfdata.GetOr([])[i].1
    ensures var line := Output(labelText, state, lines, perfdata, name).line;
      && StatusText(line) == StatusPart(name, labelText, lines.GetOr([]))
      && ('|' in line <==> |perfdata.GetOr([])| > 0)
      && ParsePerfdata(line) == Some(perfdata.GetOr([]))
  {
    var ls, perf := lines.GetOr([]), perfdata.GetOr([]);
    var head := StatusPart(name, labelText, ls);
    var line := Output(labelText, state, lines, perfdata, name).line;
    StatusPartHasNoBar(name, labelText, ls);
    if |perf| == 0 {
      assert line == head;
      IndexOfAbsent(line, '|');
    } else {
      var body := Join(" ", PerfEntries(perf));
      assert line == head + "|" + body;
      IndexOfAfter(head, '|', body);
      assert line[..|head|] == head;
      assert line[|head| + 1..] == body;
      PerfEntriesPlain(perf);
      SplitJoin(PerfEntries(perf), ' ');
      ParseEntriesRoundTrip(perf);
      assert line[|head|] == '|';
    }
  }
}
