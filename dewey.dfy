/**
 * The bookkeeping of the answer pipeline (app/dewey.py): the step tracker
 * that reports progress while an answer is prepared, and `process`, which
 * runs the two tracked steps and then streams the answer with its citations
 * rewritten.
 *
 * The language model, the search service and the clock are not modelled:
 * what they return (or that they raised) is passed in.
 */
module Dewey {
  import opened Wrappers
  import Tips
  import Citations

  datatype Status = Pending | Done

  /**
   * One step record, the dict `{"title": ..., "status": ...}` with an
   * optional "content". It is an object: the steps list and every snapshot
   * of it hold the same record, and see it change.
   */
  class Step {
    const title: string
    var status: Status
    var content: Option<string>

    constructor (title: string)
      ensures this.title == title && status == Pending && content == None
    {
      this.title := title;
      status := Pending;
      content := None;
    }
  }

  /** The list `_current_steps`, which entering a step appends to. */
  class StepList {
    var items: seq<Step>

    constructor ()
      ensures items == []
    {
      items := [];
    }

    method Append(s: Step)
      modifies this
      ensures items == old(items) + [s]
    {
      items := items + [s];
    }
  }

  /** What `start` and `complete` hand back: an empty text and a shallow copy of the steps list. */
  type Report = (string, seq<Step>)

  /** The object yielded by a tracked step. */
  class StepYielder {
    const step: Step
    const stepsList: StepList
    var hasStarted: bool

    constructor (step: Step, stepsList: StepList)
      ensures this.step == step && this.stepsList == stepsList && !hasStarted
    {
      this.step := step;
      this.stepsList := stepsList;
      hasStarted := false;
    }

    /**
     * Reports the step as started, the first time only: sets its content
     * when one is given, and returns a snapshot of the steps list. Every
     * later call returns nothing and changes nothing.
     */
    method Start(content: string) returns (r: Option<Report>)
      modifies this, step
      ensures hasStarted
      ensures old(hasStarted) ==> r == None && unchanged(step)
      ensures !old(hasStarted) ==> r == Some(("", stepsList.items))
      ensures !old(hasStarted) ==> step.status == old(step.status)
      ensures !old(hasStarted) ==> step.content == (if content != "" then Some(content) else old(step.content))
    {
      if !hasStarted {
        if content != "" {
          step.content := Some(content);
        }
        hasStarted := true;
        return Some(("", stepsList.items));
      }
      return None;
    }

    /**
     * Marks the step done, replaces its content when one is given, and
     * returns a snapshot of the steps list; this may be called any number
     * of times.
     */
    method Complete(content: string) returns (r: Report)
      modifies step
      ensures step.status == Done
      ensures step.content == (if content != "" then Some(content) else old(step.content))
      ensures r == ("", stepsList.items)
    {
      step.status := Done;
      if content != "" {
        step.content := Some(content);
      }
      return ("", stepsList.items);
    }
  }

  /** What `with self.step(...) as step` binds: a tracker, or with `show_steps=False` the bare `lambda: None`. */
  datatype Handle = Tracked(yielder: StepYielder) | Bare

  /** One item the generator yields: a text and a snapshot of the steps list. */
  datatype Event = Event(text: string, steps: seq<Step>)

  /** What a call into the model or search service did: returned a value, or raised. */
  datatype Outcome<T> = Returned(value: T) | Raised

  /** Why a run ended early: `start` looked up on the bare lambda, or a failing service call. */
  datatype Error = AttributeError | ServiceError

  datatype StepOutcome = Continue | Stop(error: Error)

  datatype RunOutcome = Finished | Failed(error: Error)

  const MetadataTitle: string := "Generating metadata"
  const SearchTitle: string := "Searching articles"
  const PlanningText: string := "\U{1F50D} I'm planning my approach."
  const DiggingText: string := "\U{1F50D} Digging through the archives"

  /** One emission per rewritten answer text, each with the same snapshot of the steps. */
  function TextEvents(texts: seq<string>, steps: seq<Step>): (events: seq<Event>)
    ensures |events| == |texts|
    ensures forall k :: 0 <= k < |texts| ==> events[k] == Event(texts[k], steps)
  {
    if texts == [] then [] else [Event(texts[0], steps)] + TextEvents(texts[1..], steps)
  }

  /** The answer texts of a stream, given the sources it cites. */
  function AnswerTexts(chunks: seq<Citations.Chunk>, sources: seq<Citations.Source>): seq<string>
  {
    Citations.Emissions(Citations.Deltas(chunks), Citations.SourceIndex(sources))
  }

  /**
   * The answer stage of `process`: build the citation index, then stream the
   * answer, one rewritten text per non-empty text delta.
   */
  method Answer(sources: seq<Citations.Source>, chunks: seq<Citations.Chunk>) returns (texts: seq<string>)
    ensures texts == AnswerTexts(chunks, sources)
  {
    var urls := Citations.BuildSourceUrls(sources);
    texts := Citations.StreamAnswer(chunks, urls);
    Citations.EmissionsAt(Citations.Deltas(chunks), urls);
  }

  /** Both tips are non-empty, so completing a step always replaces its content. */
  lemma TipsNotEmpty(m: Tips.Metadata, sources: seq<Citations.Source>)
    ensures Tips.TipMetadata(m) != ""
    ensures Tips.TipSearch(sources) != ""
  {
    assert |Tips.SearchText(m.question)| > 0;
  }

  /** The content a tracked step ends with: the completion text if non-empty, else the start text if non-empty. */
  function FinalContent(startText: string, result: Outcome<string>): Option<string>
  {
    if result.Returned? && result.value != "" then Some(result.value)
    else if startText != "" then Some(startText)
    else None
  }

  class Dewey {
    /** `_current_steps`; null while the attribute does not exist yet. */
    var currentSteps: StepList?

    constructor ()
      ensures currentSteps == null
    {
      currentSteps := null;
    }

    /**
     * Entering `with self.step(title, show_steps)`. With `show_steps` a
     * pending record is appended at the end of the steps list (created if
     * missing), earlier records left alone, and a fresh tracker for it is
     * returned; without, nothing changes and the bare handle is returned.
     */
    method EnterStep(title: string, showSteps: bool) returns (h: Handle)
      modifies this, currentSteps
      ensures !showSteps ==> h == Bare && currentSteps == old(currentSteps)
      ensures !showSteps && currentSteps != null ==> currentSteps.items == old(currentSteps.items)
      ensures showSteps ==> h.Tracked? && currentSteps != null
      ensures showSteps && old(currentSteps) != null ==> currentSteps == old(currentSteps)
      ensures showSteps ==> currentSteps.items == (if old(currentSteps) == null then [] else old(currentSteps.items)) + [h.yielder.step]
      ensures showSteps ==> fresh(h.yielder) && fresh(h.yielder.step)
      ensures showSteps ==> h.yielder.stepsList == currentSteps && !h.yielder.hasStarted
      ensures showSteps ==> h.yielder.step.title == title && h.yielder.step.status == Pending && h.yielder.step.content == None
    {
      if !showSteps {
        return Bare;
      }
      var step := new Step(title);
      if currentSteps == null {
        currentSteps := new StepList();
      }
      currentSteps.Append(step);
      var yielder := new StepYielder(step, currentSteps);
      return Tracked(yielder);
    }

    /** Leaving the `with` block by any route: the `finally` marks a tracked step done. */
    method ExitStep(h: Handle)
      modifies if h.Tracked? then {h.yielder.step} else {}
      ensures h.Tracked? ==> h.yielder.step.status == Done && h.yielder.step.content == old(h.yielder.step.content)
    {
      if h.Tracked? {
        h.yielder.step.status := Done;
      }
    }

    /**
     * One `with self.step(...)` block of `process`: start the step with
     * `startText`, then complete it with the text computed from the service
     * call, or leave the block with the exception the call raised. With
     * `bareRaises`, `step.start` on the bare handle raises as it does in the
     * code; otherwise the bare handle yields nothing.
     */
    method RunStep(title: string, showSteps: bool, bareRaises: bool, startText: string, result: Outcome<string>)
      returns (events: seq<Event>, outcome: StepOutcome)
      requires currentSteps != null
      modifies this, currentSteps
      ensures currentSteps == old(currentSteps)
      ensures !showSteps ==> currentSteps.items == old(currentSteps.items) && events == []
      ensures !showSteps && bareRaises ==> outcome == Stop(AttributeError)
      ensures !showSteps && !bareRaises ==> outcome == (if result.Returned? then Continue else Stop(ServiceError))
      ensures showSteps ==> |currentSteps.items| == |old(currentSteps.items)| + 1
      ensures showSteps ==> currentSteps.items[..|old(currentSteps.items)|] == old(currentSteps.items)
      ensures showSteps ==> var s := currentSteps.items[|currentSteps.items| - 1];
        && fresh(s) && s.title == title && s.status == Done
        && s.content == FinalContent(startText, result)
      ensures showSteps ==> events == [Event("", currentSteps.items)] + (if result.Returned? then [Event("", currentSteps.items)] else [])
      ensures showSteps ==> outcome == (if result.Returned? then Continue else Stop(ServiceError))
    {
      var h := EnterStep(title, showSteps);
      events := [];
      if h.Bare? {
        if bareRaises {
          return [], Stop(AttributeError);
        }
        if result.Raised? {
          return [], Stop(ServiceError);
        }
        return [], Continue;
      }
      var y := h.yielder;
      var started := y.Start(startText);
      if started.Some? {
        events := events + [Event(started.value.0, started.value.1)];
      }
      if result.Raised? {
        ExitStep(h);
        return events, Stop(ServiceError);
      }
      var completed := y.Complete(result.value);
      events := events + [Event(completed.0, completed.1)];
      ExitStep(h);
      outcome := Continue;
    }

    /**
     * The body of `process`, with the service results as inputs: reset the
     * steps, run the metadata step and the search step, build the citation
     * index and stream the answer, each emission carrying a snapshot of the
     * steps. `streamFails` says the stream raised after the given chunks.
     */
    method Run(showSteps: bool, bareRaises: bool, metadata: Outcome<Tips.Metadata>,
               sources: Outcome<seq<Citations.Source>>, chunks: seq<Citations.Chunk>, streamFails: bool)
      returns (events: seq<Event>, outcome: RunOutcome)
      modifies this
      ensures currentSteps != null && fresh(currentSteps)
      ensures !showSteps ==> currentSteps.items == []
      ensures !showSteps && bareRaises ==> events == [] && outcome == Failed(AttributeError)
      ensures !showSteps && !bareRaises && (metadata.Raised? || sources.Raised?) ==>
        events == [] && outcome == Failed(ServiceError)
      ensures !showSteps && !bareRaises && metadata.Returned? && sources.Returned? ==>
        && events == TextEvents(AnswerTexts(chunks, sources.value), [])
        && outcome == (if streamFails then Failed(ServiceError) else Finished)
      ensures showSteps ==> ProcessedSteps(currentSteps.items, events, outcome, metadata, sources, chunks, streamFails)
    {
      currentSteps := new StepList();
      if showSteps {
        events, outcome := RunShown(metadata, sources, chunks, streamFails);
      } else {
        events, outcome := RunHidden(bareRaises, metadata, sources, chunks, streamFails);
      }
    }

    /** `Run` without `show_steps`: no step is recorded and no start or completion is reported. */
    method RunHidden(bareRaises: bool, metadata: Outcome<Tips.Metadata>,
                     sources: Outcome<seq<Citations.Source>>, chunks: seq<Citations.Chunk>, streamFails: bool)
      returns (events: seq<Event>, outcome: RunOutcome)
      requires currentSteps != null && currentSteps.items == []
      modifies this, currentSteps
      ensures currentSteps == old(currentSteps) && currentSteps.items == []
      ensures bareRaises ==> events == [] && outcome == Failed(AttributeError)
      ensures !bareRaises && (metadata.Raised? || sources.Raised?) ==> events == [] && outcome == Failed(ServiceError)
      ensures !bareRaises && metadata.Returned? && sources.Returned? ==>
        && events == TextEvents(AnswerTexts(chunks, sources.value), [])
        && outcome == (if streamFails then Failed(ServiceError) else Finished)
    {
      var metadataTip := if metadata.Returned? then Returned(Tips.TipMetadata(metadata.value)) else Raised;
      var first, o1 := RunStep(MetadataTitle, false, bareRaises, PlanningText, metadataTip);
      if o1.Stop? {
        return first, Failed(o1.error);
      }
      var searchTip := if sources.Returned? then Returned(Tips.TipSearch(sources.value)) else Raised;
      var second, o2 := RunStep(SearchTitle, false, bareRaises, DiggingText, searchTip);
      if o2.Stop? {
        return first + second, Failed(o2.error);
      }
      var texts := Answer(sources.value, chunks);
      events := TextEvents(texts, currentSteps.items);
      outcome := if streamFails then Failed(ServiceError) else Finished;
    }

    /** `Run` with `show_steps`: both steps are recorded and reported, and every emission carries them. */
    method RunShown(metadata: Outcome<Tips.Metadata>,
                    sources: Outcome<seq<Citations.Source>>, chunks: seq<Citations.Chunk>, streamFails: bool)
      returns (events: seq<Event>, outcome: RunOutcome)
      requires currentSteps != null && currentSteps.items == []
      modifies this, currentSteps
      ensures currentSteps == old(currentSteps)
      ensures ProcessedSteps(currentSteps.items, events, outcome, metadata, sources, chunks, streamFails)
    {
      var steps := currentSteps;
      if metadata.Returned? {
        TipsNotEmpty(metadata.value, if sources.Returned? then sources.value else []);
      }
      var metadataTip := if metadata.Returned? then Returned(Tips.TipMetadata(metadata.value)) else Raised;
      var first, o1 := RunStep(MetadataTitle, true, false, PlanningText, metadataTip);
      assert MetadataStep(steps.items[0], metadata);
      if o1.Stop? {
        return first, Failed(o1.error);
      }
      events, outcome := RunShownSearch(metadata.value, first, sources, chunks, streamFails);
    }

    /** The rest of `RunShown` once the metadata step came through: the search step, then the answer. */
    method RunShownSearch(m: Tips.Metadata, first: seq<Event>,
                          sources: Outcome<seq<Citations.Source>>, chunks: seq<Citations.Chunk>, streamFails: bool)
      returns (events: seq<Event>, outcome: RunOutcome)
      requires currentSteps != null && |currentSteps.items| == 1
      requires MetadataStep(currentSteps.items[0], Returned(m))
      requires first == [Event("", currentSteps.items), Event("", currentSteps.items)]
      modifies this, currentSteps
      ensures currentSteps == old(currentSteps)
      ensures ProcessedSteps(currentSteps.items, events, outcome, Returned(m), sources, chunks, streamFails)
    {
      var steps := currentSteps;
      ghost var afterFirst := steps.items;
      if sources.Returned? {
        TipsNotEmpty(m, sources.value);
      }
      var searchTip := if sources.Returned? then Returned(Tips.TipSearch(sources.value)) else Raised;
      var second, o2 := RunStep(SearchTitle, true, false, DiggingText, searchTip);
      assert steps.items[..1] == afterFirst;
      var sp := steps.items;
      assert SearchStep(sp[1], sources);
      if o2.Stop? {
        events := first + second;
        SearchFailedSteps(sp, events, first, m, sources, chunks, streamFails);
        return events, Failed(o2.error);
      }
      var texts := Answer(sources.value, chunks);
      events := first + second + TextEvents(texts, sp);
      outcome := if streamFails then Failed(ServiceError) else Finished;
      AnsweredSteps(sp, events, first, second, outcome, m, sources, chunks, streamFails);
    }

    /**
     * `process` as written. With `show_steps=False` the first `step.start`
     * is looked up on the bare `lambda: None` and raises AttributeError
     * before anything is yielded.
     */
    method Process(showSteps: bool, metadata: Outcome<Tips.Metadata>, sources: Outcome<seq<Citations.Source>>,
                   chunks: seq<Citations.Chunk>, streamFails: bool)
      returns (events: seq<Event>, outcome: RunOutcome)
      modifies this
      ensures currentSteps != null && fresh(currentSteps)
      ensures !showSteps ==> currentSteps.items == [] && events == [] && outcome == Failed(AttributeError)
      ensures showSteps ==> ProcessedSteps(currentSteps.items, events, outcome, metadata, sources, chunks, streamFails)
    {
      events, outcome := Run(showSteps, true, metadata, sources, chunks, streamFails);
    }

    /**
     * `process` as evidently intended: with `show_steps=False` no step is
     * recorded or reported, and the answer is streamed with an empty list
     * of steps.
     */
    method ProcessIntended(showSteps: bool, metadata: Outcome<Tips.Metadata>, sources: Outcome<seq<Citations.Source>>,
                           chunks: seq<Citations.Chunk>, streamFails: bool)
      returns (events: seq<Event>, outcome: RunOutcome)
      modifies this
      ensures currentSteps != null && fresh(currentSteps)
      ensures !showSteps ==> currentSteps.items == []
      ensures !showSteps && (metadata.Raised? || sources.Raised?) ==> events == [] && outcome == Failed(ServiceError)
      ensures !showSteps && metadata.Returned? && sources.Returned? ==>
        && events == TextEvents(AnswerTexts(chunks, sources.value), [])
        && outcome == (if streamFails then Failed(ServiceError) else Finished)
      ensures showSteps ==> ProcessedSteps(currentSteps.items, events, outcome, metadata, sources, chunks, streamFails)
    {
      events, outcome := Run(showSteps, false, metadata, sources, chunks, streamFails);
    }
  }

  /** The metadata step record once its block is left: done, with the tip or else the planning text. */
  ghost predicate MetadataStep(s: Step, metadata: Outcome<Tips.Metadata>)
    reads s
  {
    && s.title == MetadataTitle && s.status == Done
    && s.content == Some(if metadata.Returned? then Tips.TipMetadata(metadata.value) else PlanningText)
  }

  /** The search step record once its block is left: done, with the tip or else the digging text. */
  ghost predicate SearchStep(s: Step, sources: Outcome<seq<Citations.Source>>)
    reads s
  {
    && s.title == SearchTitle && s.status == Done
    && s.content == Some(if sources.Returned? then Tips.TipSearch(sources.value) else DiggingText)
  }

  /**
   * What a run with `show_steps` leaves: the metadata step first, the search
   * step second if the first came through, both done with their final
   * content; the start and completion reports of each, then one emission per
   * answer text, all sharing the records of the final steps list.
   */
  ghost predicate ProcessedSteps(steps: seq<Step>, events: seq<Event>, outcome: RunOutcome,
                                 metadata: Outcome<Tips.Metadata>, sources: Outcome<seq<Citations.Source>>,
                                 chunks: seq<Citations.Chunk>, streamFails: bool)
    reads steps
  {
    && |steps| >= 1
    && MetadataStep(steps[0], metadata)
    && (metadata.Raised? ==>
          && |steps| == 1
          && events == [Event("", steps)]
          && outcome == Failed(ServiceError))
    && (metadata.Returned? ==>
          && |steps| == 2 && |events| >= 2
          && SearchStep(steps[1], sources)
          && steps[0] != steps[1]
          && events[..2] == [Event("", steps[..1]), Event("", steps[..1])]
          && (sources.Raised? ==>
                && events == events[..2] + [Event("", steps)]
                && outcome == Failed(ServiceError))
          && (sources.Returned? ==>
                && events == events[..2] + [Event("", steps), Event("", steps)]
                              + TextEvents(AnswerTexts(chunks, sources.value), steps)
                && outcome == (if streamFails then Failed(ServiceError) else Finished)))
  }

  /** `ProcessedSteps` when the search step raised. */
  lemma SearchFailedSteps(steps: seq<Step>, events: seq<Event>, first: seq<Event>, m: Tips.Metadata,
                          sources: Outcome<seq<Citations.Source>>, chunks: seq<Citations.Chunk>, streamFails: bool)
    requires |steps| == 2 && steps[0] != steps[1]
    requires MetadataStep(steps[0], Returned(m)) && SearchStep(steps[1], sources)
    requires first == [Event("", steps[..1]), Event("", steps[..1])]
    requires sources.Raised? && events == first + [Event("", steps)]
    ensures ProcessedSteps(steps, events, Failed(ServiceError), Returned(m), sources, chunks, streamFails)
  {
    assert events[..2] == first;
  }

  /** `ProcessedSteps` when both steps came through and the answer was streamed. */
  lemma AnsweredSteps(steps: seq<Step>, events: seq<Event>, first: seq<Event>, second: seq<Event>,
                      outcome: RunOutcome, m: Tips.Metadata,
                      sources: Outcome<seq<Citations.Source>>, chunks: seq<Citations.Chunk>, streamFails: bool)
    requires |steps| == 2 && steps[0] != steps[1]
    requires MetadataStep(steps[0], Returned(m)) && SearchStep(steps[1], sources)
    requires first == [Event("", steps[..1]), Event("", steps[..1])]
    requires sources.Returned? && second == [Event("", steps), Event("", steps)]
    requires events == first + second + TextEvents(AnswerTexts(chunks, sources.value), steps)
    requires outcome == (if streamFails then Failed(ServiceError) else Finished)
    ensures ProcessedSteps(steps, events, outcome, Returned(m), sources, chunks, streamFails)
  {
    assert events[..2] == first;
  }

  /** The texts of a list of events. */
  function Texts(events: seq<Event>): (texts: seq<string>)
    ensures |texts| == |events|
    ensures forall k :: 0 <= k < |events| ==> texts[k] == events[k].text
  {
    if events == [] then [] else [events[0].text] + Texts(events[1..])
  }

  /**
   * As written, hiding the steps loses the whole answer: even when every
   * service call succeeds, nothing is yielded and the run fails.
   */
  method HiddenStepsRaise(m: Tips.Metadata, sources: seq<Citations.Source>, chunks: seq<Citations.Chunk>)
    returns (events: seq<Event>, outcome: RunOutcome)
    ensures events == [] && outcome == Failed(AttributeError)
  {
    var dewey := new Dewey();
    events, outcome := dewey.Process(false, Returned(m), Returned(sources), chunks, false);
  }

  /**
   * As intended, hiding the steps changes only the reports: the emitted
   * texts are the same answer texts that follow the four step reports when
   * the steps are shown, each with an empty list of steps.
   */
  method HiddenStepsAnswer(m: Tips.Metadata, sources: seq<Citations.Source>, chunks: seq<Citations.Chunk>)
    returns (hidden: seq<Event>, outcome: RunOutcome)
    ensures Texts(hidden) == AnswerTexts(chunks, sources)
    ensures forall k :: 0 <= k < |hidden| ==> hidden[k].steps == []
    ensures outcome == Finished
  {
    var dewey := new Dewey();
    hidden, outcome := dewey.ProcessIntended(false, Returned(m), Returned(sources), chunks, false);
  }

  /**
   * A snapshot is a shallow copy: a report taken while a step was pending
   * keeps its length when a later step is appended, but shows the record's
   * later status and content, because it holds the record itself.
   */
  method SnapshotSharesRecords(title: string, tip: string, next: string)
    returns (report: Report, statusWhenReported: Status, steps: seq<Step>)
    requires tip != ""
    ensures statusWhenReported == Pending
    ensures |report.1| == 1 && |steps| == 2 && report.1[0] == steps[0]
    ensures report.1[0].status == Done && report.1[0].content == Some(tip)
    ensures steps[1].title == next && steps[1].status == Pending
  {
    var dewey := new Dewey();
    var h := dewey.EnterStep(title, true);
    var started := h.yielder.Start("");
    report := started.value;
    statusWhenReported := report.1[0].status;
    var _ := h.yielder.Complete(tip);
    dewey.ExitStep(h);
    var h2 := dewey.EnterStep(next, true);
    steps := dewey.currentSteps.items;
  }

  /** `start` reports only once per step; `complete` reports every time. */
  method StartReportsOnce(title: string, first: string, second: string)
    returns (r1: Option<Report>, r2: Option<Report>, r3: Report, content: Option<string>)
    ensures r1.Some? && r2 == None && r1.value.0 == "" && r3.0 == ""
    ensures content == (if first != "" then Some(first) else None)
  {
    var dewey := new Dewey();
    var h := dewey.EnterStep(title, true);
    r1 := h.yielder.Start(first);
    r2 := h.yielder.Start(second);
    r3 := h.yielder.Complete("");
    content := h.yielder.step.content;
  }
}
