/** The project detail window: the list of log dates, the log shown for the
    selected date (with its reference markers turned into links), saving the
    edited text back, deleting a date's logs, the media column's scroll step
    and the highlighting of an attachment when a link is clicked.

    Store queries are not defined by this model: an operation that needs
    one takes the query's result as a parameter and records the call. */
module ProjectDetailWindow {
  import opened PySemantics
  import opened DbModels
  import opened RefMarkers

  /** A call the window makes on the controller, or a warning box. */
  datatype DetailCall =
    | GetDates(projectId: Option<int>)
    | GetLogs(projectId: Option<int>, date: string)
    | SaveLogText(logId: int, content: string)
    | DeleteDateLogs(projectId: Option<int>, date: string)
    | Warn(message: string)

  /** The window's state. `dates` is the date list, `selection` the index
      of the highlighted date, `shown` the text area's contents as inserted,
      `currentLogId` the log the text belongs to. */
  datatype DetailState = DetailState(
    projectId: Option<int>,
    dates: seq<string>,
    selection: Option<nat>,
    shown: seq<Piece>,
    currentLogId: Option<int>,
    status: string)

  /** The highlighted date is one of the listed dates. */
  predicate Inv(s: DetailState)
  {
    s.selection.Some? ==> s.selection.value < |s.dates|
  }

  /** The characters in the text area. */
  function ShownText(s: DetailState): string
  {
    Concat(s.shown)
  }

  /** A state, the calls that led to it, and whether an error raised by the
      last call propagated out of the handler, leaving the state as it was
      at that call. */
  datatype Step = Step(s: DetailState, calls: seq<DetailCall>, raised: bool)

  /** `load_dates`, given the dates the store returns for the project:
      refill the list, which drops the highlight. With no dates at all the
      text area is emptied and no log is current; otherwise both are left
      as they were. */
  function LoadDates(s: DetailState, fetched: seq<string>): (r: Step)
    ensures Inv(r.s)
    ensures r.calls == [GetDates(s.projectId)]
    ensures r.s.dates == fetched && r.s.selection.None?
    ensures |fetched| == 0 ==> r.s.currentLogId.None? && ShownText(r.s) == ""
    ensures |fetched| > 0 ==> r.s.currentLogId == s.currentLogId && r.s.shown == s.shown
    ensures r.s.projectId == s.projectId && r.s.status == s.status
    ensures !r.raised
  {
    var listed := s.(dates := fetched, selection := None);
    if |fetched| == 0 then
      Step(listed.(shown := [], currentLogId := None), [GetDates(s.projectId)], false)
    else
      Step(listed, [GetDates(s.projectId)], false)
  }

  /** The window as its constructor leaves it for `project`, given the
      dates the store returns: the text area starts empty. */
  function Open(project: Project, fetched: seq<string>): (r: Step)
    ensures Inv(r.s)
    ensures r.s.currentLogId.None? && ShownText(r.s) == ""
    ensures r.s.dates == fetched && r.s.projectId == project.id
  {
    LoadDates(DetailState(project.id, [], None, [], None, ""), fetched)
  }

  /** The user highlights the `i`th date in the list. */
  function ClickDate(s: DetailState, i: nat): (s': DetailState)
    requires i < |s.dates|
    ensures Inv(s')
    ensures s' == s.(selection := Some(i))
  {
    s.(selection := Some(i))
  }

  /** The user types in the text area. Typed text carries no link tags. */
  function EditText(s: DetailState, text: string): (s': DetailState)
    ensures ShownText(s') == text
    ensures s'.currentLogId == s.currentLogId && s'.dates == s.dates && s'.selection == s.selection
  {
    var s' := s.(shown := [Plain(text)]);
    assert Concat([Plain(text)]) == text + Concat([]);
    s'
  }

  /** `on_date_selected`, given the store's logs for each date. With no
      highlighted date nothing happens. Otherwise the text and status are
      cleared and the first log returned becomes current, its content
      inserted with links; with no logs no log is current. */
  function OnDateSelected(s: DetailState, logsFor: string -> seq<LogEntry>): (r: Step)
    requires Inv(s)
    ensures Inv(r.s)
    ensures s.selection.None? ==> r == Step(s, [], false)
    ensures r.s.projectId == s.projectId && !r.raised
    ensures s.selection.Some? ==>
      && var date := s.dates[s.selection.value];
      && var logs := logsFor(date);
      && r.calls == [GetLogs(s.projectId, date)]
      && r.s.status == ""
      && r.s.dates == s.dates && r.s.selection == s.selection
      && (|logs| == 0 ==> r.s.currentLogId.None? && ShownText(r.s) == "")
      && (|logs| > 0 ==> r.s.currentLogId == logs[0].id && ShownText(r.s) == logs[0].content)
      && (|logs| > 0 ==> r.s.shown == InsertTextWithLinks(logs[0].content))
  {
    match s.selection
    case None => Step(s, [], false)
    case Some(i) =>
      var date := s.dates[i];
      var logs := logsFor(date);
      var cleared := s.(shown := [], currentLogId := None, status := "");
      if |logs| > 0 then
        Step(cleared.(currentLogId := logs[0].id, shown := InsertTextWithLinks(logs[0].content)), [GetLogs(s.projectId, date)], false)
      else
        Step(cleared, [GetLogs(s.projectId, date)], false)
  }

  const SavedMessage: string := "Changes saved successfully!"
  const NoLogMessage: string := "Error: No log entry selected"
  const DeletedMessage: string := "Date deleted."

  /** `save_text_clicked`: write the text area back to the current log, or
      only report that no log is selected. Nothing else changes. The write
      is a store operation this model does not define; `saveRaises` says
      whether it raised, in which case no success is reported. */
  function SaveTextClicked(s: DetailState, saveRaises: bool): (r: Step)
    ensures (exists k :: SaveLogText(k, ShownText(s)) in r.calls) <==> s.currentLogId.Some?
    ensures s.currentLogId.Some? ==> r.calls == [SaveLogText(s.currentLogId.value, ShownText(s))]
    ensures s.currentLogId.Some? && !saveRaises ==> r.s.status == SavedMessage
    ensures r.raised <==> s.currentLogId.Some? && saveRaises
    ensures r.raised ==> r.s == s
    ensures s.currentLogId.None? ==> r.calls == [] && r.s.status == NoLogMessage
    ensures r.s == s.(status := r.s.status)
  {
    match s.currentLogId
    case Some(id) =>
      var call := SaveLogText(id, ShownText(s));
      var r := if saveRaises then Step(s, [call], true) else Step(s.(status := SavedMessage), [call], false);
      assert call in r.calls;
      r
    case None => Step(s.(status := NoLogMessage), [], false)
  }

  /** `delete_date_clicked`, given whether the user confirms and the dates
      the store lists afterwards. Without a highlighted date only a warning
      is shown; a refused confirmation changes nothing; otherwise the
      date's logs are deleted, the list reloaded, the text area emptied
      and no log is current. The deletion is a store operation this model
      does not define; `deleteRaises` says whether it raised, in which case
      nothing is reloaded or cleared. */
  function DeleteDateClicked(s: DetailState, confirmed: bool, deleteRaises: bool, datesAfter: seq<string>): (r: Step)
    requires Inv(s)
    ensures Inv(r.s)
    ensures r.s.projectId == s.projectId
    ensures r.raised <==> s.selection.Some? && confirmed && deleteRaises
    ensures s.selection.None? ==> r.s == s && r.calls == [Warn("Please select a date to delete.")]
    ensures s.selection.Some? && !confirmed ==> r == Step(s, [], false)
    ensures s.selection.Some? && confirmed && deleteRaises ==>
      r == Step(s, [DeleteDateLogs(s.projectId, s.dates[s.selection.value])], true)
    ensures s.selection.Some? && confirmed && !deleteRaises ==>
      && r.calls == [DeleteDateLogs(s.projectId, s.dates[s.selection.value]), GetDates(s.projectId)]
      && r.s.currentLogId.None? && ShownText(r.s) == ""
      && r.s.dates == datesAfter && r.s.selection.None?
      && r.s.status == DeletedMessage
  {
    match s.selection
    case None => Step(s, [Warn("Please select a date to delete.")], false)
    case Some(i) =>
      if !confirmed then Step(s, [], false)
      else
        var date := s.dates[i];
        if deleteRaises then Step(s, [DeleteDateLogs(s.projectId, date)], true)
        else
          var loaded := LoadDates(s, datesAfter);
          Step(loaded.s.(shown := [], currentLogId := None, status := DeletedMessage),
               [DeleteDateLogs(s.projectId, date)] + loaded.calls, false)
  }

  // ---------------------------------------------------------------------
  // Scrolling the media column

  /** The sign of a non-zero delta, as `delta // abs(delta)` computes it. */
  function Sign(x: int): (r: int)
    ensures x > 0 ==> r == 1
    ensures x < 0 ==> r == -1
    ensures x == 0 ==> r == 0
  {
    if x == 0 then 0 else FloorDiv(x, Abs(x))
  }

  /** `on_mousewheel`: the number of units the media canvas scrolls, or
      `None` when the handler returns without scrolling. `direction` is set
      by the Button-4/5 bindings (1 and -1) and absent for a `<MouseWheel>`
      event, which carries `eventDelta`. A delta of magnitude 120 or more
      scrolls 4 units against its sign; a smaller one scrolls half of it,
      negated, truncated toward zero by `int()`. */
  function OnMousewheel(direction: Option<int>, eventDelta: int): (r: Option<int>)
    ensures r.None? <==> direction.None? && eventDelta == 0
    ensures r.Some? ==>
      && var delta := if direction.Some? then -direction.value else eventDelta;
      && (Abs(delta) >= 120 ==> r.value == -4 * Sign(delta))
      && (Abs(delta) < 120 ==> 2 * Abs(r.value) <= Abs(delta) < 2 * Abs(r.value) + 2)
      && (r.value != 0 ==> Sign(r.value) == -Sign(delta))
  {
    var delta := if direction.Some? then -direction.value else eventDelta;
    if direction.None? && eventDelta == 0 then None
    else if Abs(delta) >= 120 then Some(-1 * FloorDiv(delta, Abs(delta)) * 4)
    else Some(TruncDiv(-delta, 2))
  }

  /** The Button-4/5 bindings pass a unit delta, which scrolls nothing. */
  lemma ButtonEventsScrollZero(direction: int)
    requires direction == 1 || direction == -1
    ensures OnMousewheel(Some(direction), 0) == Some(0)
  {
  }

  /** A wheel event's step is at most 59 units either way; a full notch of
      120 or more scrolls exactly 4. */
  lemma WheelStepBounded(eventDelta: int)
    requires eventDelta != 0
    ensures var r := OnMousewheel(None, eventDelta);
      r.Some? && -59 <= r.value <= 59
      && (Abs(eventDelta) >= 120 ==> r.value == 4 || r.value == -4)
      && (eventDelta == 120 ==> r.value == -4) && (eventDelta == -120 ==> r.value == 4)
  {
  }

  /** The step is not monotone in the delta: a wheel delta of 119 scrolls 59
      units, but a full notch of 120 scrolls only 4. */
  lemma WheelStepNotMonotone()
    ensures OnMousewheel(None, 119) == Some(-59)
    ensures OnMousewheel(None, 120) == Some(-4)
    ensures OnMousewheel(None, -119) == Some(59)
    ensures OnMousewheel(None, -120) == Some(4)
  {
  }

  /** Scrolling is antisymmetric: opposite deltas scroll opposite amounts. */
  lemma WheelAntisymmetric(eventDelta: int)
    requires eventDelta != 0
    ensures OnMousewheel(None, -eventDelta).value == -OnMousewheel(None, eventDelta).value
  {
    var a := OnMousewheel(None, eventDelta).value;
    var b := OnMousewheel(None, -eventDelta).value;
    if Abs(eventDelta) < 120 {
      assert Abs(a) == Abs(b);
    }
  }

  // ---------------------------------------------------------------------
  // Highlighting an attachment

  datatype FrameStyle = DarkList | Highlighted

  /** The value of a digit string, most significant digit first. */
  function DecimalValue(d: string): (n: nat)
    requires AllDigits(d)
    decreases |d|
  {
    if |d| == 0 then 0
    else DecimalValue(d[..|d| - 1]) * 10 + (d[|d| - 1] as int - '0' as int)
  }

  /** The most digits `int()` converts from a string: CPython's default
      `sys.int_info.default_max_str_digits`. Leading zeros count. */
  const MaxStrDigits: nat := 4300

  /** `int(attachment_id)` on the digit strings it can be given: `None`
      stands for the `ValueError` raised on anything else, including a
      digit string longer than `MaxStrDigits`. */
  function ParseDecimal(s: string): (r: Option<nat>)
    ensures r.Some? <==> 0 < |s| <= MaxStrDigits && AllDigits(s)
    ensures r.Some? ==> r.value == DecimalValue(s)
  {
    if 0 < |s| <= MaxStrDigits && AllDigits(s) then Some(DecimalValue(s)) else None
  }

  /** The decimal rendering of `n`, without leading zeros. */
  function Str(n: nat): (s: string)
    ensures |s| > 0 && AllDigits(s)
    ensures |s| > 1 ==> s[0] != '0'
  {
    var c := ('0' as int + n % 10) as char;
    if n < 10 then [c] else Str(n / 10) + [c]
  }

  /** `highlight_media`: when the link's digits name a displayed
      attachment, every frame is reset and that one highlighted; otherwise
      nothing changes. */
  function HighlightMedia(frames: map<int, FrameStyle>, refId: string): (r: map<int, FrameStyle>)
    ensures r.Keys == frames.Keys
    ensures ParseDecimal(refId).Some? && ParseDecimal(refId).value in frames ==>
      forall k | k in r :: (r[k] == Highlighted <==> k == ParseDecimal(refId).value)
    ensures ParseDecimal(refId).None? || ParseDecimal(refId).value !in frames ==> r == frames
  {
    match ParseDecimal(refId)
    case None => frames
    case Some(target) =>
      if target in frames then
        map k | k in frames :: if k == target then Highlighted else DarkList
      else
        frames
  }

  /** The value of a rendering is the number rendered. */
  lemma {:induction false} DecimalStr(n: nat)
    ensures DecimalValue(Str(n)) == n
    decreases n
  {
    var c := ('0' as int + n % 10) as char;
    var s := Str(n);
    assert s[|s| - 1] == c && c as int - '0' as int == n % 10;
    if n >= 10 {
      DecimalStr(n / 10);
      assert s[..|s| - 1] == Str(n / 10);
      assert DecimalValue(s) == DecimalValue(Str(n / 10)) * 10 + n % 10;
    } else {
      assert s == [c];
      assert s[..0] == [] && DecimalValue(s[..0]) == 0;
      assert DecimalValue(s) == DecimalValue(s[..0]) * 10 + n % 10;
    }
  }

  /** Parsing a rendering gives the number back, as long as the rendering
      is within `int()`'s digit limit. */
  lemma ParseStr(n: nat)
    ensures ParseDecimal(Str(n)) == if |Str(n)| <= MaxStrDigits then Some(n) else None
  {
    DecimalStr(n);
  }

  /** Leading zeros do not change the value: `[ref:007]` and `[ref:7]`
      highlight the same attachment. */
  lemma {:induction false} LeadingZeroIgnored(d: string)
    requires AllDigits(d)
    ensures AllDigits("0" + d)
    ensures DecimalValue("0" + d) == DecimalValue(d)
    ensures 0 < |d| < MaxStrDigits ==> ParseDecimal("0" + d) == ParseDecimal(d)
    ensures |d| == MaxStrDigits ==> ParseDecimal("0" + d).None? && ParseDecimal(d).Some?
    decreases |d|
  {
    var z := "0" + d;
    assert forall k | 0 <= k < |z| :: z[k] == if k == 0 then '0' else d[k - 1];
    if |d| > 0 {
      var init := d[..|d| - 1];
      assert AllDigits(init) by {
        assert forall k | 0 <= k < |init| :: init[k] == d[k];
      }
      LeadingZeroIgnored(init);
      assert z[..|z| - 1] == "0" + init;
    }
  }

  /** Every link the text area shows carries a non-empty digit string, so
      `highlight_media` parses it exactly when it is within `int()`'s digit
      limit; a longer one takes the `ValueError` path. */
  lemma LinksParse(content: string, k: nat)
    requires k < |InsertTextWithLinks(content)|
    requires InsertTextWithLinks(content)[k].Link?
    ensures var d := InsertTextWithLinks(content)[k].refId;
      && |d| > 0 && AllDigits(d)
      && (ParseDecimal(d).Some? <==> |d| <= MaxStrDigits)
  {
  }

  /** A well-formed link whose digits run past the limit highlights
      nothing, even when the attachment it names is shown: 4300 zeros
      followed by 7 does not reach frame 7. */
  lemma OverlongLinkIgnored(frames: map<int, FrameStyle>)
    ensures var d := seq(MaxStrDigits, _ => '0') + "7";
      && AllDigits(d) && DecimalValue(d) == 7
      && HighlightMedia(frames, d) == frames
  {
    var zeros := seq(MaxStrDigits, _ => '0');
    var d := zeros + "7";
    assert AllDigits(d) by {
      assert forall j | 0 <= j < |d| :: d[j] == if j < MaxStrDigits then '0' else '7';
    }
    assert d[..|d| - 1] == zeros;
    ZerosValue(MaxStrDigits);
  }

  /** A run of zeros is worth 0. */
  lemma {:induction false} ZerosValue(n: nat)
    ensures AllDigits(seq(n, _ => '0'))
    ensures DecimalValue(seq(n, _ => '0')) == 0
  {
    var z := seq(n, _ => '0');
    if n > 0 {
      ZerosValue(n - 1);
      assert z[..n - 1] == seq(n - 1, _ => '0');
    }
  }

  /** A click keeps at most one frame highlighted: it holds before any
      click, and a click on a link either leaves the frames as they were or
      highlights exactly one. */
  lemma AtMostOneHighlighted(frames: map<int, FrameStyle>, refId: string, a: int, b: int)
    requires forall x, y | x in frames && y in frames && frames[x] == Highlighted && frames[y] == Highlighted :: x == y
    requires a in frames && b in frames
    requires HighlightMedia(frames, refId)[a] == Highlighted && HighlightMedia(frames, refId)[b] == Highlighted
    ensures a == b
  {
  }

  // ---------------------------------------------------------------------
  // Properties of the selection state

  /** Selecting a date and saving right away writes the first log's content
      back to that log unchanged, markers included. */
  lemma SelectThenSaveWritesBack(s: DetailState, logsFor: string -> seq<LogEntry>, saveRaises: bool)
    requires Inv(s) && s.selection.Some?
    requires var logs := logsFor(s.dates[s.selection.value]); |logs| > 0 && logs[0].id.Some?
    ensures var logs := logsFor(s.dates[s.selection.value]);
      SaveTextClicked(OnDateSelected(s, logsFor).s, saveRaises).calls == [SaveLogText(logs[0].id.value, logs[0].content)]
  {
  }

  /** After deleting a date's logs, saving writes nothing. */
  lemma NoSaveAfterDelete(s: DetailState, datesAfter: seq<string>, saveRaises: bool)
    requires Inv(s) && s.selection.Some?
    ensures SaveTextClicked(DeleteDateClicked(s, true, false, datesAfter).s, saveRaises).calls == []
  {
  }

  /** A window opened on a project with no logs cannot save. */
  lemma NoSaveOnEmptyProject(project: Project, saveRaises: bool)
    ensures SaveTextClicked(Open(project, []).s, saveRaises).calls == []
  {
  }

  /** Reloading the same dates after a selection keeps the shown log
      current, but a follow-up date selection does nothing until a date is
      highlighted again. */
  lemma ReloadDropsHighlight(s: DetailState, fetched: seq<string>, logsFor: string -> seq<LogEntry>)
    requires Inv(s) && |fetched| > 0
    ensures var r := LoadDates(s, fetched);
      && r.s.currentLogId == s.currentLogId
      && OnDateSelected(r.s, logsFor) == Step(r.s, [], false)
  {
  }
}
