/** The watcher thread of `notify_on_oom_v2`: what it does with one inotify event and one batch. */
module OomThread {
  import opened Decimal
  import opened Integers
  import opened Text
  import opened Wrappers

  datatype Flag = Modify | Delete | MovedFrom | IsDir | Ignored | Unmount | QOverflow

  datatype Event = Event(wd: int, mask: set<Flag>, name: Option<string>)

  /** The two watch descriptors and the last component of the watched directory. */
  datatype Watches = Watches(parentWd: int, eventsWd: int, name: string)

  datatype Action = Resync | Stop | Recount | Skip

  /** The branch an event takes; the order of the tests is the order in the loop body. */
  function Classify(w: Watches, e: Event): Action {
    if QOverflow in e.mask then Resync
    else if e.wd == w.parentWd && e.name == Some(w.name) && e.mask * {Delete, MovedFrom} != {} then Stop
    else if e.mask * {Ignored, Unmount} != {} then Stop
    else if e.wd == w.eventsWd && Modify in e.mask then Recount
    else Skip
  }

  /** What the outside world shows at one moment: `dir.exists()`, the count read, the receiver. */
  datatype Look = Look(present: bool, count: Option<nat>, open: bool)

  /** How far the thread is with the head of its batch. */
  datatype Hand = Idle | Checked | Counted(count: nat)

  datatype Thread = Thread(base: nat, sent: nat, batch: seq<Event>, hand: Hand, live: bool) {
    function Next(): Thread
      requires batch != []
    {
      this.(batch := batch[1..], hand := Idle)
    }

    function Standing(): Progress {
      Progress(base, sent, live)
    }

    function Die(): Thread {
      this.(live := false)
    }

    function Read(look: Look): Thread {
      match look.count
      case None => Die()
      case Some(c) => this.(hand := Counted(c))
    }

    /** One access to shared state by the thread: an existence check, a read, or a send. */
    function Step(w: Watches, look: Look): Thread
      requires live && batch != []
    {
      match hand
      case Idle =>
        (match Classify(w, batch[0])
         case Stop => Die()
         case Skip => Next()
         case Resync => if look.present then this.(hand := Checked) else Die()
         case Recount => Read(look))
      case Checked => Read(look)
      case Counted(c) =>
        if c <= base then Next()
        else if look.open then Next().(base := c, sent := sent + 1)
        else Die()
    }
  }

  /** What the thread sees while it handles one event: at the check, at the read and at the send. */
  datatype Looks = Looks(check: Look, read: Look, send: Look)

  datatype Progress = Progress(base: nat, sent: nat, live: bool)

  function Compare(p: Progress, looks: Looks): Progress {
    match looks.read.count
    case None => p.(live := false)
    case Some(c) =>
      if c <= p.base then p
      else if looks.send.open then p.(base := c, sent := p.sent + 1)
      else p.(live := false)
  }

  function Handle(w: Watches, p: Progress, e: Event, looks: Looks): Progress {
    match Classify(w, e)
    case Stop => p.(live := false)
    case Skip => p
    case Resync => if looks.check.present then Compare(p, looks) else p.(live := false)
    case Recount => Compare(p, looks)
  }

  function HandleAll(w: Watches, p: Progress, events: seq<Event>, looks: seq<Looks>): Progress
    requires |looks| == |events|
    decreases |events|
  {
    if events == [] || !p.live then p
    else HandleAll(w, Handle(w, p, events[0], looks[0]), events[1..], looks[1..])
  }

  function Repeat(key: string, n: nat): (r: seq<string>)
    ensures |r| == n && forall i | 0 <= i < n :: r[i] == key
  {
    seq(n, _ => key)
  }

  class Watcher {
    const key: string
    const watches: Watches
    var base: nat
    var sent: seq<string>

    constructor (key: string, watches: Watches, baseline: nat)
      ensures this.key == key && this.watches == watches && base == baseline && sent == []
    {
      this.key, this.watches, base, sent := key, watches, baseline, [];
    }

    /** The `for event in events` loop; the result tells whether the thread goes on to read again. */
    method HandleBatch(events: seq<Event>, looks: seq<Looks>) returns (live: bool)
      requires |looks| == |events|
      modifies this
      ensures var p := HandleAll(watches, Progress(old(base), 0, true), events, looks);
              base == p.base && live == p.live && sent == old(sent) + Repeat(key, p.sent)
    {
      ghost var all := HandleAll(watches, Progress(base, 0, true), events, looks);
      ghost var n := 0;
      for i := 0 to |events|
        invariant sent == old(sent) + Repeat(key, n)
        invariant all == HandleAll(watches, Progress(base, n, true), events[i..], looks[i..])
      {
        var event := events[i];
        assert events[i..][1..] == events[i + 1..] && looks[i..][1..] == looks[i + 1..];
        if QOverflow in event.mask {
          if !looks[i].check.present {
            return false;
          }
          match looks[i].read.count {
            case None => return false;
            case Some(count) =>
              if count > base {
                if !looks[i].send.open {
                  return false;
                }
                sent := sent + [key];
                n := n + 1;
                base := count;
              }
          }
          continue;
        }

        if event.wd == watches.parentWd && event.name == Some(watches.name)
           && event.mask * {Delete, MovedFrom} != {} {
          return false;
        }

        if event.mask * {Ignored, Unmount} != {} {
          return false;
        }

        if event.wd == watches.eventsWd && Modify in event.mask {
          match looks[i].read.count {
            case None => return false;
            case Some(count) =>
              if count > base {
                if !looks[i].send.open {
                  return false;
                }
                sent := sent + [key];
                n := n + 1;
                base := count;
              }
          }
        }
      }
      live := true;
    }
  }

  /** The accesses the thread makes for the head of its batch. */
  function ThinkEvent(w: Watches, t: Thread, looks: Looks): Thread
    requires t.live && t.batch != [] && t.hand == Idle
  {
    var first := t.Step(w, if Classify(w, t.batch[0]) == Recount then looks.read else looks.check);
    var second := if first.live && first.hand == Checked then first.Step(w, looks.read) else first;
    if second.live && second.hand.Counted? then second.Step(w, looks.send) else second
  }

  function ThinkBatch(w: Watches, t: Thread, looks: seq<Looks>): Thread
    requires t.live && t.hand == Idle && |looks| == |t.batch|
    decreases |looks|
  {
    if t.batch == [] then t
    else
      var next := ThinkEvent(w, t, looks[0]);
      if next.live then
        HandleIsSteps(w, t, looks[0]);
        ThinkBatch(w, next, looks[1..])
      else next
  }

  /** Handling an event in one go is what the separate accesses come to, whatever lies between them. */
  lemma HandleIsSteps(w: Watches, t: Thread, looks: Looks)
    requires t.live && t.batch != [] && t.hand == Idle
    ensures var p := Handle(w, Progress(t.base, t.sent, true), t.batch[0], looks);
            var after := ThinkEvent(w, t, looks);
            && after.Standing() == p && (p.live ==> after.hand == Idle && after.batch == t.batch[1..])
  {
  }

  /** And so for a whole batch: thinking access by access comes to handling event by event. */
  lemma {:induction false} HandleAllIsSteps(w: Watches, t: Thread, looks: seq<Looks>)
    requires t.live && t.hand == Idle && |looks| == |t.batch|
    ensures var p := HandleAll(w, Progress(t.base, t.sent, true), t.batch, looks);
            var after := ThinkBatch(w, t, looks);
            && after.Standing() == p && (p.live ==> after.hand == Idle && after.batch == [])
    decreases |looks|
  {
    if t.batch != [] {
      HandleIsSteps(w, t, looks[0]);
      var next := ThinkEvent(w, t, looks[0]);
      if next.live {
        HandleAllIsSteps(w, next, looks[1..]);
      }
    }
  }

  /** What each kind of event does, by its descriptor, name and mask. */
  lemma EventMeans(w: Watches, p: Progress, e: Event, looks: Looks)
    requires p.live
    ensures QOverflow !in e.mask
            && ((e.wd == w.parentWd && e.name == Some(w.name) && (Delete in e.mask || MovedFrom in e.mask))
                || Ignored in e.mask || Unmount in e.mask) ==>
              Handle(w, p, e, looks) == p.(live := false)
    ensures QOverflow !in e.mask
            && !(e.wd == w.parentWd && e.name == Some(w.name) && (Delete in e.mask || MovedFrom in e.mask))
            && Ignored !in e.mask && Unmount !in e.mask && !(e.wd == w.eventsWd && Modify in e.mask) ==>
              Handle(w, p, e, looks) == p
  {
    assert forall f :: f in e.mask * {Delete, MovedFrom} <==> f in e.mask && (f == Delete || f == MovedFrom);
    assert forall f :: f in e.mask * {Ignored, Unmount} <==> f in e.mask && (f == Ignored || f == Unmount);
    assert Delete in e.mask ==> Delete in e.mask * {Delete, MovedFrom};
    assert MovedFrom in e.mask ==> MovedFrom in e.mask * {Delete, MovedFrom};
    assert Ignored in e.mask ==> Ignored in e.mask * {Ignored, Unmount};
    assert Unmount in e.mask ==> Unmount in e.mask * {Ignored, Unmount};
  }

  /** The events that lead to a read, and what the count does; an overflow checks the directory first. */
  lemma CountMeans(w: Watches, p: Progress, e: Event, looks: Looks)
    requires p.live
    requires QOverflow in e.mask
             || (e.wd == w.eventsWd && Modify in e.mask && Ignored !in e.mask && Unmount !in e.mask
                 && !(e.wd == w.parentWd && e.name == Some(w.name) && (Delete in e.mask || MovedFrom in e.mask)))
    ensures var gone := QOverflow in e.mask && !looks.check.present;
            var count := looks.read.count;
            && (gone || count.None? ==> Handle(w, p, e, looks) == p.(live := false))
            && (!gone && count.Some? && count.value <= p.base ==> Handle(w, p, e, looks) == p)
            && (!gone && count.Some? && count.value > p.base && !looks.send.open ==>
                  Handle(w, p, e, looks) == p.(live := false))
            && (!gone && count.Some? && count.value > p.base && looks.send.open ==>
                  Handle(w, p, e, looks) == Progress(count.value, p.sent + 1, true))
  {
    assert forall f :: f in e.mask * {Delete, MovedFrom} <==> f in e.mask && (f == Delete || f == MovedFrom);
    assert forall f :: f in e.mask * {Ignored, Unmount} <==> f in e.mask && (f == Ignored || f == Unmount);
  }

  /** A batch is handled event by event: with the two lemmas above this says what any batch does. */
  lemma {:induction false} HandleAllConcat(
    w: Watches, p: Progress, a: seq<Event>, b: seq<Event>, la: seq<Looks>, lb: seq<Looks>)
    requires |la| == |a| && |lb| == |b|
    ensures HandleAll(w, p, a + b, la + lb) == HandleAll(w, HandleAll(w, p, a, la), b, lb)
    decreases |a|
  {
    if a == [] {
      assert a + b == b && la + lb == lb;
    } else if p.live {
      assert (a + b)[1..] == a[1..] + b && (la + lb)[1..] == la[1..] + lb;
      HandleAllConcat(w, Handle(w, p, a[0], la[0]), a[1..], b, la[1..], lb);
    }
  }

  lemma HandleAllOne(w: Watches, p: Progress, e: Event, looks: Looks)
    requires p.live
    ensures HandleAll(w, p, [e], [looks]) == Handle(w, p, e, looks)
  {
    assert [e][1..] == [] && [looks][1..] == [];
  }

  /** The notice of a removal ends the thread at any place of a batch, whatever stands before and after it. */
  lemma RemovalEndsBatch(w: Watches, p: Progress, events: seq<Event>, looks: seq<Looks>, k: nat)
    requires |looks| == |events| && k < |events|
    requires var e := events[k];
             e.wd == w.parentWd && e.name == Some(w.name) && (Delete in e.mask || MovedFrom in e.mask)
             && QOverflow !in e.mask
    ensures !HandleAll(w, p, events, looks).live
  {
    var before := HandleAll(w, p, events[..k], looks[..k]);
    var rest, restLooks := events[k + 1..], looks[k + 1..];
    assert events == events[..k] + events[k..] && looks == looks[..k] + looks[k..];
    assert events[k..] == [events[k]] + rest && looks[k..] == [looks[k]] + restLooks;
    HandleAllConcat(w, p, events[..k], events[k..], looks[..k], looks[k..]);
    if before.live {
      HandleAllConcat(w, before, [events[k]], rest, [looks[k]], restLooks);
      HandleAllOne(w, before, events[k], looks[k]);
      EventMeans(w, before, events[k], looks[k]);
    }
  }

  /** The highest count read while a batch is handled, over `base`. */
  function Highest(w: Watches, base: nat, events: seq<Event>, looks: seq<Looks>): nat
    requires |looks| == |events|
    decreases |events|
  {
    if events == [] then base
    else
      var c := looks[0].read.count;
      var counts := Classify(w, events[0]) in {Resync, Recount};
      Highest(w, if counts && c.Some? then Larger(base, c.value) else base, events[1..], looks[1..])
  }

  /** A batch that is handled to its end leaves the highest count as the base, at most one send a count. */
  lemma {:induction false} BaseIsHighest(w: Watches, p: Progress, events: seq<Event>, looks: seq<Looks>)
    requires |looks| == |events| && p.live
    ensures var q := HandleAll(w, p, events, looks);
            && (q.live ==> q.base == Highest(w, p.base, events, looks))
            && q.base >= p.base && p.sent <= q.sent <= p.sent + (q.base - p.base)
            && (q.sent == p.sent <==> q.base == p.base)
    decreases |events|
  {
    if events != [] {
      var q := Handle(w, p, events[0], looks[0]);
      if q.live {
        BaseIsHighest(w, q, events[1..], looks[1..]);
      } else {
        assert HandleAll(w, p, events, looks) == q;
      }
    }
  }

  datatype ReadError = ReadFailed | ParseError | OomNotFound

  /** The count in the lines of memory.events; None stands for a line whose reading fails. */
  function OomCount(lines: seq<Option<string>>): Result<nat, ReadError> {
    if lines == [] then Err(OomNotFound)
    else
      match lines[0]
      case None => Err(ReadFailed)
      case Some(line) =>
        var words := Words(line);
        if |words| >= 2 && words[0] == "oom" then
          match ParseU64(words[1]) case Some(n) => Ok(n) case None => Err(ParseError)
        else OomCount(lines[1..])
  }

  /** `read_oom_count`: the value of the first line whose key is "oom"; None is a file that does not open. */
  method ReadOomCount(file: Option<seq<Option<string>>>) returns (r: Result<nat, ReadError>)
    ensures r == match file case None => Err(ReadFailed) case Some(lines) => OomCount(lines)
  {
    match file {
      case None => return Err(ReadFailed);
      case Some(lines) =>
        for i := 0 to |lines|
          invariant OomCount(lines) == OomCount(lines[i..])
        {
          assert lines[i..][1..] == lines[i + 1..];
          match lines[i] {
            case None => return Err(ReadFailed);
            case Some(line) =>
              var words := Words(line);
              if |words| >= 2 {
                if words[0] == "oom" {
                  match ParseU64(words[1]) {
                    case Some(count) => return Ok(count);
                    case None => return Err(ParseError);
                  }
                }
              }
          }
        }
        r := Err(OomNotFound);
    }
  }

  datatype Entry = Entry(key: string, value: nat)

  predicate ValidEntry(e: Entry) {
    e.key != [] && Free(e.key, WHITESPACE) && e.value <= U64_MAX
  }

  function PrintEntry(e: Entry): string {
    Join([e.key, PrintNat(e.value)], " ")
  }

  function PrintEntries(es: seq<Entry>): seq<Option<string>> {
    if es == [] then [] else [Some(PrintEntry(es[0]))] + PrintEntries(es[1..])
  }

  lemma PrintEntryWords(e: Entry)
    requires ValidEntry(e)
    ensures Words(PrintEntry(e)) == [e.key, PrintNat(e.value)]
  {
    assert Free(PrintNat(e.value), WHITESPACE) by {
      assert forall c | c in WHITESPACE :: !IsDigit(c);
    }
    WordsJoin([e.key, PrintNat(e.value)]);
  }

  lemma {:induction false} OthersAreSkipped(es: seq<Entry>, rest: seq<Option<string>>)
    requires forall e | e in es :: ValidEntry(e) && e.key != "oom"
    ensures OomCount(PrintEntries(es) + rest) == OomCount(rest)
  {
    if es == [] {
      assert PrintEntries(es) + rest == rest;
    } else {
      var lines := PrintEntries(es) + rest;
      assert es[0] in es;
      PrintEntryWords(es[0]);
      assert lines[0] == Some(PrintEntry(es[0])) && lines[1..] == PrintEntries(es[1..]) + rest;
      OthersAreSkipped(es[1..], rest);
    }
  }

  /** What any line does that can be read: it is passed over, or it decides. */
  lemma LineMeans(line: string, rest: seq<Option<string>>)
    ensures var words, r := Words(line), OomCount([Some(line)] + rest);
            && (|words| < 2 || words[0] != "oom" ==> r == OomCount(rest))
            && (|words| >= 2 && words[0] == "oom" && ParseU64(words[1]) == None ==> r == Err(ParseError))
            && (|words| >= 2 && words[0] == "oom" && ParseU64(words[1]).Some? ==> r == Ok(ParseU64(words[1]).value))
  {
    var lines := [Some(line)] + rest;
    assert lines[0] == Some(line) && lines[1..] == rest;
  }

  /** The first entry "oom" is read, whatever stands before it and whether or not the rest can be read. */
  lemma OomEntryIsRead(es: seq<Entry>, oom: Entry, rest: seq<Option<string>>)
    requires (forall e | e in es :: ValidEntry(e) && e.key != "oom") && ValidEntry(oom) && oom.key == "oom"
    ensures OomCount(PrintEntries(es) + ([Some(PrintEntry(oom))] + rest)) == Ok(oom.value)
  {
    OthersAreSkipped(es, [Some(PrintEntry(oom))] + rest);
    PrintEntryWords(oom);
    UnsignedRoundTrip(oom.value, U64_MAX);
  }

  /** Without that entry there is no count: an error at the first line that cannot be read, or at the end. */
  lemma OomEntryMissing(es: seq<Entry>, rest: seq<Option<string>>)
    requires forall e | e in es :: ValidEntry(e) && e.key != "oom"
    ensures OomCount(PrintEntries(es)) == Err(OomNotFound)
    ensures OomCount(PrintEntries(es) + ([None] + rest)) == Err(ReadFailed)
  {
    OthersAreSkipped(es, []);
    assert PrintEntries(es) + [] == PrintEntries(es);
    OthersAreSkipped(es, [None] + rest);
  }
}
