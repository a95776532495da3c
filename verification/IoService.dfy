/** `parse_io_service`: the per-device counters of the blkio controller. */
module IoService {
  import opened Decimal
  import opened Integers
  import opened Text
  import opened Wrappers

  datatype Service = Service(
    major: int, minor: int, read: nat, write: nat, sync: nat, async: nat, discard: nat, total: nat)

  const DEFAULT := Service(0, 0, 0, 0, 0, 0, 0, 0)

  /** A panic stands for the `unwrap` of a missing ':' in a line of three words. */
  datatype ParseError = ParseError | Panic

  /** One line of three words whose first word has a ':'; numbers that do not parse are None. */
  datatype Line = Line(major: Option<int>, minor: Option<int>, op: string, value: Option<nat>)

  // Text to lines.

  /** `str::lines`: a final line break ends the last line, and a '\r' before a break is dropped. */
  function Lines(s: string): seq<string> {
    Unterminated(Split(s, {'\n'}))
  }

  function Unterminated(parts: seq<string>): seq<string>
    requires parts != []
  {
    if |parts| == 1 then if parts[0] == "" then [] else [parts[0]]
    else [DropReturn(parts[0])] + Unterminated(parts[1..])
  }

  function DropReturn(s: string): string {
    if s != "" && s[|s| - 1] == '\r' then s[..|s| - 1] else s
  }

  /** The lines that take part, or None if one of them makes the parser panic. */
  function Scan(lines: seq<string>): Option<seq<Line>> {
    if lines == [] then Some([])
    else
      var words := Words(lines[0]);
      if |words| != 3 then Scan(lines[1..])
      else
        var device := Split(words[0], {':'});
        if |device| < 2 then None
        else
          match Scan(lines[1..])
          case None => None
          case Some(rest) =>
            Some([Line(ParseI16(device[0]), ParseI16(device[1]), words[1], ParseU64(words[2]))] + rest)
  }

  // Lines to services.

  function Put(s: Service, op: string, v: nat): Service {
    match op
    case "Read" => s.(read := v)
    case "Write" => s.(write := v)
    case "Sync" => s.(sync := v)
    case "Async" => s.(async := v)
    case "Discard" => s.(discard := v)
    case "Total" => s.(total := v)
    case _ => s
  }

  predicate WellFormed(lines: seq<Line>) {
    forall l | l in lines :: l.major.Some? && l.minor.Some? && l.value.Some?
  }

  /** The loop over the lines, from the services pushed so far and the one being filled. */
  function Fold(lines: seq<Line>, done: seq<Service>, current: Service): Option<seq<Service>>
    decreases |lines|
  {
    if lines == [] then Some(if current.major != 0 then done + [current] else done)
    else
      var l := lines[0];
      if l.major.None? || l.minor.None? || l.value.None? then None
      else
        var another := (l.major.value != current.major || l.minor.value != current.minor) && current.major != 0;
        var base := if another then DEFAULT else current;
        Fold(lines[1..], if another then done + [current] else done,
             Put(base.(major := l.major.value, minor := l.minor.value), l.op, l.value.value))
  }

  function Parse(text: string): Result<seq<Service>, ParseError> {
    match Scan(Lines(text))
    case None => Err(Panic)
    case Some(lines) =>
      match Fold(lines, [], DEFAULT) case None => Err(ParseError.ParseError) case Some(services) => Ok(services)
  }

  /** A line of three words whose first word has no ':'. */
  predicate Colonless(line: string) {
    var words := Words(line);
    |words| == 3 && Free(words[0], {':'})
  }

  lemma {:induction false} ScanFails(lines: seq<string>)
    ensures Scan(lines) == None <==> exists line :: line in lines && Colonless(line)
  {
    if lines != [] {
      ScanFails(lines[1..]);
      if |Words(lines[0])| == 3 {
        SplitSingle(Words(lines[0])[0], {':'});
      }
      if Colonless(lines[0]) {
        assert lines[0] in lines;
      } else if line :| line in lines[1..] && Colonless(line) {
        assert line in lines;
      } else {
        assert forall line :: line in lines ==> line == lines[0] || line in lines[1..];
      }
    }
  }

  method ParseIoService(text: string) returns (r: Result<seq<Service>, ParseError>)
    ensures r == Parse(text)
  {
    var ioServices, ioService := [], DEFAULT;
    var scanned := Scan(Lines(text));
    if scanned.None? {
      return Err(Panic);
    }
    var lines := scanned.value;
    for i := 0 to |lines|
      invariant Fold(lines, [], DEFAULT) == Fold(lines[i..], ioServices, ioService)
    {
      var l := lines[i];
      assert lines[i..][0] == l && lines[i..][1..] == lines[i + 1..];
      if l.major.None? || l.minor.None? {
        return Err(ParseError.ParseError);
      }
      var major, minor := l.major.value, l.minor.value;
      if (major != ioService.major || minor != ioService.minor) && ioService.major != 0 {
        ioServices := ioServices + [ioService];
        ioService := DEFAULT;
      }
      ioService := ioService.(major := major, minor := minor);
      if l.value.None? {
        return Err(ParseError.ParseError);
      }
      ioService := Put(ioService, l.op, l.value.value);
    }
    if ioService.major != 0 {
      ioServices := ioServices + [ioService];
    }
    r := Ok(ioServices);
  }

  // The reference: maximal runs of lines of one device, the last value of each operation in a run.

  predicate SameDevice(a: Line, b: Line) {
    a.major == b.major && a.minor == b.minor
  }

  /** The number of lines of the first maximal run. */
  function RunLength(lines: seq<Line>): (n: nat)
    requires lines != []
    ensures 1 <= n <= |lines|
    ensures forall i | 0 <= i < n :: SameDevice(lines[i], lines[0])
    ensures n < |lines| ==> !SameDevice(lines[n], lines[0])
  {
    if |lines| == 1 || !SameDevice(lines[1], lines[0]) then 1 else 1 + RunLength(lines[1..])
  }

  function LastValue(run: seq<Line>, op: string): nat
    requires WellFormed(run)
  {
    if run == [] then 0
    else if run[|run| - 1].op == op then run[|run| - 1].value.value
    else LastValue(run[..|run| - 1], op)
  }

  function Summary(run: seq<Line>): Service
    requires run != [] && WellFormed(run)
  {
    Service(run[0].major.value, run[0].minor.value, LastValue(run, "Read"), LastValue(run, "Write"),
            LastValue(run, "Sync"), LastValue(run, "Async"), LastValue(run, "Discard"), LastValue(run, "Total"))
  }

  function Grouped(lines: seq<Line>): seq<Service>
    requires WellFormed(lines)
    decreases |lines|
  {
    if lines == [] then []
    else
      var n := RunLength(lines);
      [Summary(lines[..n])] + Grouped(lines[n..])
  }

  /** The loop fails exactly if a number of some line does not parse. */
  lemma {:induction false} MalformedFails(lines: seq<Line>, done: seq<Service>, current: Service)
    ensures Fold(lines, done, current).Some? <==> WellFormed(lines)
    decreases |lines|
  {
    if lines != [] {
      var l := lines[0];
      if l.major.Some? && l.minor.Some? && l.value.Some? {
        var another := (l.major.value != current.major || l.minor.value != current.minor) && current.major != 0;
        var base := if another then DEFAULT else current;
        MalformedFails(lines[1..], if another then done + [current] else done,
                       Put(base.(major := l.major.value, minor := l.minor.value), l.op, l.value.value));
        assert lines == [l] + lines[1..];
      }
    }
  }

  /** When the whole parse panics, when it fails, and so when it succeeds. */
  lemma ParseOutcome(text: string)
    ensures Parse(text) == Err(Panic) <==> exists line :: line in Lines(text) && Colonless(line)
    ensures Parse(text) == Err(ParseError.ParseError) <==>
              Scan(Lines(text)).Some? && !WellFormed(Scan(Lines(text)).value)
  {
    ScanFails(Lines(text));
    if Scan(Lines(text)).Some? {
      MalformedFails(Scan(Lines(text)).value, [], DEFAULT);
    }
  }

  lemma RunLengthIs(lines: seq<Line>, n: nat)
    requires 1 <= n <= |lines| && (forall i | 0 <= i < n :: SameDevice(lines[i], lines[0]))
    requires n < |lines| ==> !SameDevice(lines[n], lines[0])
    ensures RunLength(lines) == n
  {
    var m := RunLength(lines);
    var atM := m < |lines| && SameDevice(lines[m], lines[0]);
    var atN := n < |lines| && SameDevice(lines[n], lines[0]);
  }

  lemma SummaryMore(run: seq<Line>, l: Line)
    requires WellFormed(run + [l]) && (run != [] ==> WellFormed(run) && SameDevice(run[0], l))
    ensures var base := if run == [] then DEFAULT else Summary(run);
            Put(base.(major := l.major.value, minor := l.minor.value), l.op, l.value.value) == Summary(run + [l])
  {
    assert (run + [l])[..|run|] == run;
    assert forall op: string {:trigger LastValue(run + [l], op)} ::
        LastValue(run + [l], op) == if l.op == op then l.value.value else LastValue(run, op);
  }

  predicate Nonzero(lines: seq<Line>) {
    forall l | l in lines :: l.major != Some(0)
  }

  lemma RunEnds(run: seq<Line>, rest: seq<Line>)
    requires run != [] && WellFormed(run + rest) && WellFormed(run) && WellFormed(rest)
    requires forall i | 0 <= i < |run| :: SameDevice(run[i], run[0])
    requires rest != [] ==> !SameDevice(rest[0], run[0])
    ensures Grouped(run + rest) == [Summary(run)] + Grouped(rest)
  {
    RunLengthIs(run + rest, |run|);
    assert (run + rest)[..|run|] == run && (run + rest)[|run|..] == rest;
  }

  predicate OneDevice(run: seq<Line>) {
    run != [] && WellFormed(run) && Nonzero(run) && forall i | 0 <= i < |run| :: SameDevice(run[i], run[0])
  }

  lemma RunGrows(run: seq<Line>, l: Line)
    requires WellFormed([l]) && Nonzero([l])
    requires run == [] || (OneDevice(run) && SameDevice(l, run[0]))
    ensures OneDevice(run + [l])
    ensures var base := if run == [] then DEFAULT else Summary(run);
            Put(base.(major := l.major.value, minor := l.minor.value), l.op, l.value.value) == Summary(run + [l])
  {
    assert l in [l];
    assert forall x | x in run + [l] :: x in run || x == l;
    SummaryMore(run, l);
  }

  /** One round of the loop: the run grows, or it is pushed and the next one starts. */
  lemma FoldStep(run: seq<Line>, rest: seq<Line>, done: seq<Service>)
    requires OneDevice(run) && rest != [] && WellFormed(rest) && Nonzero(rest)
    ensures OneDevice([rest[0]]) && (SameDevice(rest[0], run[0]) ==> OneDevice(run + [rest[0]]))
    ensures Fold(rest, done, Summary(run)) ==
            if SameDevice(rest[0], run[0]) then Fold(rest[1..], done, Summary(run + [rest[0]]))
            else Fold(rest[1..], done + [Summary(run)], Summary([rest[0]]))
  {
    var l := rest[0];
    assert run[0] in run && l in rest;
    if SameDevice(l, run[0]) {
      RunGrows(run, l);
    }
    RunGrows([], l);
    assert [] + [l] == [l];
  }

  lemma Regroup(run: seq<Line>, rest: seq<Line>, done: seq<Service>)
    requires OneDevice(run) && rest != [] && WellFormed(rest) && !SameDevice(rest[0], run[0])
    ensures WellFormed(run + rest) && done + [Summary(run)] + Grouped(rest) == done + Grouped(run + rest)
  {
    ConcatIsWellFormed(run, rest);
    RunEnds(run, rest);
  }

  lemma ConcatIsWellFormed(a: seq<Line>, b: seq<Line>)
    requires WellFormed(a) && WellFormed(b)
    ensures WellFormed(a + b)
  {
    assert forall l | l in a + b :: l in a || l in b;
  }

  lemma FoldEnds(run: seq<Line>, done: seq<Service>)
    requires OneDevice(run)
    ensures WellFormed(run + []) && Fold([], done, Summary(run)) == Some(done + Grouped(run + []))
  {
    ConcatIsWellFormed(run, []);
    RunEnds(run, []);
    assert run[0] in run;
    assert [Summary(run)] + Grouped([]) == [Summary(run)];
  }

  lemma Regrouped(run: seq<Line>, rest: seq<Line>)
    requires rest != []
    ensures run + [rest[0]] + rest[1..] == run + rest && [rest[0]] + rest[1..] == rest
  {
  }

  /** The service being filled is the summary of the current run. */
  lemma {:induction false} FoldIsGrouped(run: seq<Line>, rest: seq<Line>, done: seq<Service>)
    requires OneDevice(run) && WellFormed(rest) && Nonzero(rest)
    ensures WellFormed(run + rest) && Fold(rest, done, Summary(run)) == Some(done + Grouped(run + rest))
    decreases |rest|
  {
    if rest == [] {
      FoldEnds(run, done);
    } else {
      FoldStep(run, rest, done);
      TailKeeps(rest);
      Regrouped(run, rest);
      if SameDevice(rest[0], run[0]) {
        FoldIsGrouped(run + [rest[0]], rest[1..], done);
      } else {
        FoldIsGrouped([rest[0]], rest[1..], done + [Summary(run)]);
        Regroup(run, rest, done);
      }
    }
  }

  lemma TailKeeps(lines: seq<Line>)
    requires lines != [] && WellFormed(lines) && Nonzero(lines)
    ensures WellFormed(lines[1..]) && Nonzero(lines[1..])
  {
    assert forall l | l in lines[1..] :: l in lines;
  }

  lemma {:induction false} ZeroIsNeverPushed(lines: seq<Line>, done: seq<Service>, current: Service)
    requires Fold(lines, done, current).Some? && forall s | s in done :: s.major != 0
    ensures forall s | s in Fold(lines, done, current).value :: s.major != 0
    decreases |lines|
  {
    if lines != [] {
      var l := lines[0];
      var another := (l.major.value != current.major || l.minor.value != current.minor) && current.major != 0;
      var base := if another then DEFAULT else current;
      ZeroIsNeverPushed(lines[1..], if another then done + [current] else done,
                        Put(base.(major := l.major.value, minor := l.minor.value), l.op, l.value.value));
    }
  }

  lemma {:induction false} EveryDeviceIsGrouped(lines: seq<Line>, l: Line)
    requires WellFormed(lines) && l in lines
    ensures exists s :: s in Grouped(lines) && s.major == l.major.value && s.minor == l.minor.value
    decreases |lines|
  {
    var n := RunLength(lines);
    var i :| 0 <= i < |lines| && lines[i] == l;
    if i < n {
      assert Grouped(lines)[0] == Summary(lines[..n]);
    } else {
      assert lines[n..][i - n] == l;
      EveryDeviceIsGrouped(lines[n..], l);
      assert forall s | s in Grouped(lines[n..]) :: s in Grouped(lines);
    }
  }

  /** The loop computes the grouping by maximal runs exactly when no device has major number 0. */
  lemma LoopIsGrouping(lines: seq<Line>)
    requires WellFormed(lines)
    ensures Fold(lines, [], DEFAULT) == Some(Grouped(lines)) <==> Nonzero(lines)
  {
    if Nonzero(lines) {
      if lines != [] {
        var l := lines[0];
        assert l in lines && lines == [l] + lines[1..];
        RunGrows([], l);
        assert [] + [l] == [l];
        FoldIsGrouped([l], lines[1..], []);
        assert [] + Grouped(lines) == Grouped(lines);
      }
    } else {
      var l :| l in lines && l.major == Some(0);
      EveryDeviceIsGrouped(lines, l);
      MalformedFails(lines, [], DEFAULT);
      ZeroIsNeverPushed(lines, [], DEFAULT);
    }
  }

  lemma ZeroMajorIsNotPushed()
    ensures var zero := Line(Some(0), Some(1), "Read", Some(7));
            var other := Line(Some(8), Some(0), "Write", Some(1));
            Fold([zero, other], [], DEFAULT) == Some([DEFAULT.(major := 8, read := 7, write := 1)])
  {
    var zero := Line(Some(0), Some(1), "Read", Some(7));
    var other := Line(Some(8), Some(0), "Write", Some(1));
    assert [zero, other][1..] == [other] && [other][1..] == [];
    var first := DEFAULT.(minor := 1, read := 7);
    var second := first.(major := 8, minor := 0, write := 1);
    assert Fold([zero, other], [], DEFAULT) == Fold([other], [], first);
    assert Fold([other], [], first) == Fold([], [], second);
    assert [] + [second] == [second];
  }

  // Printing, and reading the printed text back.

  predicate Valid(s: Service) {
    s.major != 0 && -0x8000 <= s.major <= I16_MAX && -0x8000 <= s.minor <= I16_MAX
    && s.read <= U64_MAX && s.write <= U64_MAX && s.sync <= U64_MAX
    && s.async <= U64_MAX && s.discard <= U64_MAX && s.total <= U64_MAX
  }

  function Records(s: Service): (r: seq<Line>)
    ensures |r| == 6
  {
    var m, n := Some(s.major), Some(s.minor);
    [Line(m, n, "Read", Some(s.read)), Line(m, n, "Write", Some(s.write)), Line(m, n, "Sync", Some(s.sync)),
     Line(m, n, "Async", Some(s.async)), Line(m, n, "Discard", Some(s.discard)), Line(m, n, "Total", Some(s.total))]
  }

  function AllRecords(services: seq<Service>): seq<Line> {
    if services == [] then [] else Records(services[0]) + AllRecords(services[1..])
  }

  function PrintLine(l: Line): string
    requires l.major.Some? && l.minor.Some? && l.value.Some?
  {
    Join([PrintInt(l.major.value) + [':'] + PrintInt(l.minor.value), l.op, PrintNat(l.value.value)], " ")
  }

  function PrintLines(lines: seq<Line>): seq<string>
    requires WellFormed(lines)
  {
    if lines == [] then [] else [PrintLine(lines[0])] + PrintLines(lines[1..])
  }

  function Terminated(lines: seq<string>): string {
    if lines == [] then "" else lines[0] + ['\n'] + Terminated(lines[1..])
  }

  /** The text of the kernel: six lines a device, and a grand total of two words at the end. */
  function Print(services: seq<Service>, total: nat): string
    requires WellFormed(AllRecords(services))
  {
    Terminated(PrintLines(AllRecords(services)) + ["Total " + PrintNat(total)])
  }

  predicate ValidLine(l: Line) {
    && l.major.Some? && l.minor.Some? && l.value.Some? && l.value.value <= U64_MAX
    && -0x8000 <= l.major.value <= I16_MAX && -0x8000 <= l.minor.value <= I16_MAX
    && Letters(l.op)
  }

  lemma DeviceRoundTrip(major: int, minor: int)
    ensures var device := PrintInt(major) + [':'] + PrintInt(minor);
            Split(device, {':'}) == [PrintInt(major), PrintInt(minor)] && Free(device, WHITESPACE)
  {
    PrintHasNoSeparator(major, ':');
    PrintHasNoSeparator(minor, ':');
    SplitConcat(PrintInt(major), ':', PrintInt(minor), {':'});
    SplitFree(PrintInt(minor), {':'});
    NumberFree(major);
    NumberFree(minor);
  }

  lemma NumberFree(n: int)
    ensures Free(PrintInt(n), WHITESPACE)
  {
    forall i | 0 <= i < |PrintInt(n)|
      ensures PrintInt(n)[i] !in WHITESPACE
    {
      if PrintInt(n)[i] in WHITESPACE {
        PrintHasNoSeparator(n, PrintInt(n)[i]);
      }
    }
  }

  predicate Letters(s: string) {
    s != "" && forall i | 0 <= i < |s| :: 'A' <= s[i] <= 'z'
  }

  lemma OpFree(op: string)
    requires Letters(op)
    ensures Free(op, WHITESPACE)
  {
    assert forall c | c in WHITESPACE :: !('A' <= c <= 'z');
  }

  lemma PrintLineWords(l: Line)
    requires ValidLine(l)
    ensures var device := PrintInt(l.major.value) + [':'] + PrintInt(l.minor.value);
            Words(PrintLine(l)) == [device, l.op, PrintNat(l.value.value)]
  {
    var device, number := PrintInt(l.major.value) + [':'] + PrintInt(l.minor.value), PrintNat(l.value.value);
    DeviceRoundTrip(l.major.value, l.minor.value);
    NumberFree(l.value.value);
    OpFree(l.op);
    WordsJoin([device, l.op, number]);
  }

  /** Reading a printed line gives the line back, in front of whatever else there is. */
  lemma ScanPrinted(l: Line, rest: seq<string>)
    requires ValidLine(l) && Scan(rest).Some?
    ensures Scan([PrintLine(l)] + rest) == Some([l] + Scan(rest).value)
  {
    PrintLineWords(l);
    DeviceRoundTrip(l.major.value, l.minor.value);
    SignedRoundTrip(l.major.value, I16_MAX);
    SignedRoundTrip(l.minor.value, I16_MAX);
    UnsignedRoundTrip(l.value.value, U64_MAX);
    assert ([PrintLine(l)] + rest)[1..] == rest;
  }

  lemma PrintedFirst(lines: seq<Line>, rest: seq<string>)
    requires lines != [] && WellFormed(lines) && WellFormed(lines[1..])
    ensures PrintLines(lines) + rest == [PrintLine(lines[0])] + (PrintLines(lines[1..]) + rest)
  {
    assert lines[0] in lines;
  }

  lemma {:induction false} ScanAllPrinted(lines: seq<Line>, rest: seq<string>)
    requires (forall l | l in lines :: ValidLine(l)) && Scan(rest) == Some([])
    ensures WellFormed(lines) && Scan(PrintLines(lines) + rest) == Some(lines)
  {
    if lines == [] {
      assert PrintLines(lines) + rest == rest;
    } else {
      assert lines[0] in lines && forall l | l in lines[1..] :: l in lines;
      ScanAllPrinted(lines[1..], rest);
      ScanPrinted(lines[0], PrintLines(lines[1..]) + rest);
      PrintedFirst(lines, rest);
      assert lines == [lines[0]] + lines[1..];
    }
  }

  /** Lines without line breaks or white space at the end survive being put into a text. */
  lemma {:induction false} LinesOfTerminated(lines: seq<string>)
    requires forall l | l in lines :: l != "" && '\n' !in l && l[|l| - 1] != '\r'
    ensures Lines(Terminated(lines)) == lines
  {
    if lines != [] {
      assert lines[0] in lines;
      var rest := Terminated(lines[1..]);
      LinesOfTerminated(lines[1..]);
      SplitConcat(lines[0], '\n', rest, {'\n'});
      assert ([lines[0]] + Split(rest, {'\n'}))[1..] == Split(rest, {'\n'});
      assert lines == [lines[0]] + lines[1..];
    }
  }

  lemma PrintLineIsLine(l: Line)
    requires ValidLine(l)
    ensures var s := PrintLine(l); s != "" && '\n' !in s && s[|s| - 1] != '\r'
  {
    var device, number := PrintInt(l.major.value) + [':'] + PrintInt(l.minor.value), PrintNat(l.value.value);
    NumberFree(l.major.value);
    NumberFree(l.minor.value);
    NumberFree(l.value.value);
    OpFree(l.op);
    assert PrintLine(l) == device + " " + (l.op + " " + number) by {
      assert [device, l.op, number][1..] == [l.op, number] && [l.op, number][1..] == [number];
      assert Join([l.op, number], " ") == l.op + " " + Join([number], " ");
    }
    assert IsDigit(number[|number| - 1]);
  }

  /** Neighbours are different devices. */
  predicate Separated(services: seq<Service>) {
    |services| < 2
    || ((services[0].major != services[1].major || services[0].minor != services[1].minor) && Separated(services[1..]))
  }

  lemma {:induction false} RecordsAreValid(services: seq<Service>)
    requires forall s | s in services :: Valid(s)
    ensures forall l | l in AllRecords(services) :: ValidLine(l) && l.major != Some(0)
    ensures WellFormed(AllRecords(services))
  {
    if services != [] {
      var s, more := services[0], AllRecords(services[1..]);
      assert s in services;
      RecordsAreValid(services[1..]);
      RecordsValid(s);
      assert forall l | l in Records(s) + more :: l in Records(s) || l in more;
    }
  }

  /** The lines of services whose neighbours differ are grouped into just these services. */
  lemma {:induction false} RecordsGroup(services: seq<Service>)
    requires Separated(services) && forall s | s in services :: Valid(s)
    ensures WellFormed(AllRecords(services)) && Grouped(AllRecords(services)) == services
  {
    RecordsAreValid(services);
    if services != [] {
      var s, rest, run := services[0], AllRecords(services[1..]), Records(services[0]);
      assert s in services;
      RecordsGroup(services[1..]);
      RecordsValid(s);
      SummaryOfRecords(s);
      if |services| > 1 {
        assert rest[0] == Records(services[1])[0];
      }
      RunEnds(run, rest);
      assert services == [s] + services[1..];
    }
  }

  lemma OperationsAreLetters()
    ensures Letters("Read") && Letters("Write") && Letters("Sync")
    ensures Letters("Async") && Letters("Discard") && Letters("Total")
  {
  }

  lemma RecordsValid(s: Service)
    requires Valid(s)
    ensures WellFormed(Records(s)) && forall l | l in Records(s) :: ValidLine(l) && l.major != Some(0)
  {
    OperationsAreLetters();
    var r := Records(s);
    assert ValidLine(r[0]) && ValidLine(r[1]) && ValidLine(r[2]);
    assert ValidLine(r[3]) && ValidLine(r[4]) && ValidLine(r[5]);
  }

  lemma SummaryOfRecords(s: Service)
    requires WellFormed(Records(s))
    ensures Summary(Records(s)) == s
  {
    var r := Records(s);
    LastValueAt(r, 0);
    LastValueAt(r, 1);
    LastValueAt(r, 2);
    LastValueAt(r, 3);
    LastValueAt(r, 4);
    LastValueAt(r, 5);
  }

  lemma {:induction false} LastValueAt(run: seq<Line>, k: nat)
    requires WellFormed(run) && k < |run| && forall i | k < i < |run| :: run[i].op != run[k].op
    ensures LastValue(run, run[k].op) == run[k].value.value
    decreases |run|
  {
    if k < |run| - 1 {
      LastValueAt(run[..|run| - 1], k);
    }
  }

  lemma {:induction false} PrintLinesAreLines(lines: seq<Line>)
    requires forall l | l in lines :: ValidLine(l)
    ensures WellFormed(lines) && forall s | s in PrintLines(lines) :: s != "" && '\n' !in s && s[|s| - 1] != '\r'
  {
    if lines != [] {
      assert lines[0] in lines;
      PrintLineIsLine(lines[0]);
      PrintLinesAreLines(lines[1..]);
    }
  }

  /** The line with the grand total has two words and is passed over. */
  lemma TotalIsSkipped(total: nat)
    ensures var last := "Total " + PrintNat(total);
            Scan([last]) == Some([]) && '\n' !in last && last[|last| - 1] != '\r'
  {
    var n, last := PrintNat(total), "Total " + PrintNat(total);
    NumberFree(total);
    OpFree("Total");
    WordsJoin(["Total", n]);
    assert ["Total", n][1..] == [n];
    assert Join(["Total", n], " ") == last;
    assert [last][1..] == [];
    assert IsDigit(n[|n| - 1]);
  }

  lemma PrintedTextIsScanned(lines: seq<Line>, total: nat)
    requires forall l | l in lines :: ValidLine(l)
    ensures WellFormed(lines)
    ensures Scan(Lines(Terminated(PrintLines(lines) + ["Total " + PrintNat(total)]))) == Some(lines)
  {
    TotalIsSkipped(total);
    ScanAllPrinted(lines, ["Total " + PrintNat(total)]);
    PrintLinesAreLines(lines);
    LinesOfTerminated(PrintLines(lines) + ["Total " + PrintNat(total)]);
  }

  /** Parsing the printed form of services with differing neighbours returns the services. */
  lemma PrintedServicesAreRead(services: seq<Service>, total: nat)
    requires Separated(services) && forall s | s in services :: Valid(s)
    ensures WellFormed(AllRecords(services)) && Parse(Print(services, total)) == Ok(services)
  {
    RecordsGroup(services);
    RecordsAreValid(services);
    PrintedTextIsScanned(AllRecords(services), total);
    LoopIsGrouping(AllRecords(services));
  }

  /** A device of major number 0 is dropped, and its values leak into the device that follows. */
  lemma ZeroMajorLeaks()
    ensures var zero := Line(Some(0), Some(1), "Read", Some(7));
            var other := Line(Some(8), Some(0), "Write", Some(1));
            Parse(Terminated(PrintLines([zero, other]) + ["Total " + PrintNat(8)]))
              == Ok([DEFAULT.(major := 8, read := 7, write := 1)])
  {
    var zero := Line(Some(0), Some(1), "Read", Some(7));
    var other := Line(Some(8), Some(0), "Write", Some(1));
    OperationsAreLetters();
    assert forall l | l in [zero, other] :: ValidLine(l);
    PrintedTextIsScanned([zero, other], 8);
    ZeroMajorIsNotPushed();
  }

  /** A line of three words without a colon makes the parser panic. */
  lemma ColonlessPanics()
    ensures Parse("a b c") == Err(Panic)
  {
    var line := "a b c";
    assert ["a", "b", "c"][1..] == ["b", "c"] && ["b", "c"][1..] == ["c"];
    assert Join(["b", "c"], " ") == "b c";
    assert Join(["a", "b", "c"], " ") == line;
    WordsJoin(["a", "b", "c"]);
    SplitFree(line, {'\n'});
    assert Lines(line) == [line] && Colonless(line);
    ParseOutcome(line);
  }

  // What every text line, every run of lines and every text comes to.

  /** A line that is not of three words is passed over. */
  lemma OtherLinesAreSkipped(line: string, rest: seq<string>)
    requires |Words(line)| != 3
    ensures Scan([line] + rest) == Scan(rest)
  {
    assert ([line] + rest)[1..] == rest;
  }

  /** A line "x:y op v" gives its two device numbers, its operation and its value, each read as a number. */
  lemma ThreeWordsAreRead(line: string, x: string, y: string, op: string, v: string, rest: seq<string>)
    requires Words(line) == [x + ":" + y, op, v] && Free(x, {':'}) && Free(y, {':'}) && Scan(rest).Some?
    ensures Scan([line] + rest) == Some([Line(ParseI16(x), ParseI16(y), op, ParseU64(v))] + Scan(rest).value)
  {
    var lines := [line] + rest;
    assert lines[0] == line && lines[1..] == rest;
    SplitFree(y, {':'});
    SplitConcat(x, ':', y, {':'});
    assert x + [':'] + y == x + ":" + y;
  }

  /** The field of each operation is the value of the last line with that name in the run. */
  lemma SummaryFields(run: seq<Line>, k: nat)
    requires WellFormed(run) && k < |run| && forall i | k < i < |run| :: run[i].op != run[k].op
    ensures var s, v := Summary(run), run[k].value.value;
            && s.major == run[0].major.value && s.minor == run[0].minor.value
            && (run[k].op == "Read" ==> s.read == v) && (run[k].op == "Write" ==> s.write == v)
            && (run[k].op == "Sync" ==> s.sync == v) && (run[k].op == "Async" ==> s.async == v)
            && (run[k].op == "Discard" ==> s.discard == v) && (run[k].op == "Total" ==> s.total == v)
  {
    LastValueAt(run, k);
  }

  /** And 0 without such a line. */
  lemma {:induction false} AbsentOperation(run: seq<Line>, op: string)
    requires WellFormed(run) && forall l | l in run :: l.op != op
    ensures LastValue(run, op) == 0
  {
    if run != [] {
      assert run[|run| - 1] in run;
      assert forall l | l in run[..|run| - 1] :: l in run;
      AbsentOperation(run[..|run| - 1], op);
    }
  }

  /** A maximal run of one device gives one service, and the rest is grouped by itself. */
  lemma FirstRun(run: seq<Line>, rest: seq<Line>)
    requires run != [] && WellFormed(run) && WellFormed(rest)
    requires forall l | l in run :: l.major == run[0].major && l.minor == run[0].minor
    requires rest != [] ==> rest[0].major != run[0].major || rest[0].minor != run[0].minor
    ensures WellFormed(run + rest) && Grouped(run + rest) == [Summary(run)] + Grouped(rest)
  {
    ConcatIsWellFormed(run, rest);
    assert forall i | 0 <= i < |run| :: run[i] in run;
    RunEnds(run, rest);
  }

  /** A line break ends a line, with the return before it; the last line needs none. */
  lemma LinesAt(line: string, rest: string)
    requires '\n' !in line
    ensures Lines(line + "\n" + rest)
              == [if line != "" && line[|line| - 1] == '\r' then line[..|line| - 1] else line] + Lines(rest)
    ensures Lines(line) == if line == "" then [] else [line]
  {
    SplitFree(line, {'\n'});
    SplitConcat(line, '\n', rest, {'\n'});
    assert line + ['\n'] + rest == line + "\n" + rest;
    var parts := Split(rest, {'\n'});
    assert ([line] + parts)[1..] == parts;
  }
}
