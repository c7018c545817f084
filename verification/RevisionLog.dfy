/**
 The log of revisions kept for each collected message, the snapshots made from it, and the collection cursor.

 A text and its digest are identified: the digest is taken to be injective. What can go wrong at a message is part of
 the input, as a `Fault`.
 */
module RevisionLog {
  import opened Common

  datatype Revision = Revision(number: nat, content: string)

  /** Where the handling of a message stops: before anything was stored, after the raw record was committed and before
      its first revision was, or after the revision was committed and before its snapshot was. */
  datatype Fault = NoFault | Lost | RecordOnly | SnapshotLost

  /** A message without usable text has no content. */
  datatype Message = Message(id: nat, content: Option<string>, fault: Fault)

  datatype Kind = New | Edited | Duplicate

  datatype SnapshotId = SnapshotId(message: nat, revision: nat)

  /** `saved` is the cursor as last committed. */
  datatype Store = Store(records: map<nat, string>, logs: map<nat, seq<Revision>>, snapshots: seq<SnapshotId>,
                         cursor: Option<nat>, saved: Option<nat>)

  const EMPTY := Store(map[], map[], [], None, None)

  function LogOf(store: Store, id: nat): seq<Revision> {
    if id in store.logs then store.logs[id] else []
  }

  predicate HasContent(log: seq<Revision>, content: string) {
    exists k :: 0 <= k < |log| && log[k].content == content
  }

  function Appended(log: seq<Revision>, content: string): seq<Revision> {
    if HasContent(log, content) then log else log + [Revision(|log| + 1, content)]
  }

  /** Numbered from one without gaps, and no text twice. */
  ghost predicate WellNumbered(log: seq<Revision>) {
    && (forall k | 0 <= k < |log| :: log[k].number == k + 1)
    && (forall k, l | 0 <= k < l < |log| :: log[k].content != log[l].content)
  }

  ghost predicate Valid(store: Store) {
    && store.logs.Keys <= store.records.Keys
    && (forall id | id in store.logs :: WellNumbered(store.logs[id]))
    && (forall s | s in store.snapshots :: 1 <= s.revision <= |LogOf(store, s.message)|)
    && (forall k, l | 0 <= k < l < |store.snapshots| :: store.snapshots[k] != store.snapshots[l])
  }

  function Advanced(cursor: Option<nat>, id: nat): Option<nat> {
    if cursor.None? || cursor.value < id then Some(id) else cursor
  }

  // ---------- One message ----------

  predicate Stops(message: Message) {
    message.fault == Lost || message.fault == RecordOnly
  }

  /** What one message does to the store. */
  function Step(store: Store, message: Message): Store {
    if message.content.None? then store.(cursor := Advanced(store.cursor, message.id)) else
      var id, content := message.id, message.content.value;
      if Stops(message) then
        if id in store.records || message.fault == Lost then store.(cursor := store.saved)
        else store.(records := store.records[id := content], saved := store.cursor)
      else if HasContent(LogOf(store, id), content) then Repeated(store, id, content)
      else
        var kept := store.(
          records := if id in store.records then store.records else store.records[id := content],
          logs := store.logs[id := Appended(LogOf(store, id), content)],
          saved := store.cursor);
        if message.fault == SnapshotLost then kept.(cursor := store.cursor) else
          var cursor := Advanced(store.cursor, id);
          kept.(snapshots := store.snapshots + [SnapshotId(id, |LogOf(store, id)| + 1)], cursor := cursor,
                saved := cursor)
  }

  /** A text that is already in the log: only the cursor moves, from its committed value if the text is an older one and
      the insertion had to be undone. The row of the old revision is taken to be readable after that. */
  function Repeated(store: Store, id: nat, content: string): Store
    requires HasContent(LogOf(store, id), content)
  {
    var log := LogOf(store, id);
    var from := if log[|log| - 1].content == content then store.cursor else store.saved;
    store.(cursor := Advanced(from, id))
  }

  /** A failure to make the snapshot ends the run. */
  predicate Ends(store: Store, message: Message) {
    message.content.Some? && message.fault == SnapshotLost
      && !HasContent(LogOf(store, message.id), message.content.value)
  }

  function Run(store: Store, messages: seq<Message>): Store
    decreases |messages|
  {
    if messages == [] then store.(saved := store.cursor)
    else if Ends(store, messages[0]) then Step(store, messages[0])
    else Run(Step(store, messages[0]), messages[1..])
  }

  // ---------- The collector ----------

  class Collector {
    var records: map<nat, string>
    var logs: map<nat, seq<Revision>>
    var snapshots: seq<SnapshotId>
    var cursor: Option<nat>
    var saved: Option<nat>

    constructor ()
      ensures Contents() == EMPTY
    {
      records, logs, snapshots, cursor, saved := map[], map[], [], None, None;
    }

    ghost function Contents(): Store
      reads this
    {
      Store(records, logs, snapshots, cursor, saved)
    }

    /** The revision with the greatest number, and that number. */
    static method Latest(log: seq<Revision>) returns (latest: Option<Revision>, greatest: nat)
      requires WellNumbered(log)
      ensures greatest == |log|
      ensures latest == if log == [] then None else Some(log[|log| - 1])
    {
      latest, greatest := None, 0;
      for k := 0 to |log|
        invariant greatest == k
        invariant latest == if k == 0 then None else Some(log[k - 1])
      {
        if log[k].number > greatest {
          latest, greatest := Some(log[k]), log[k].number;
        }
      }
    }

    /** Is the insertion refused by one of the two unique indexes? */
    static method Refused(log: seq<Revision>, revision: Revision) returns (refused: bool)
      requires WellNumbered(log) && revision.number == |log| + 1
      ensures refused <==> HasContent(log, revision.content)
    {
      refused := false;
      for k := 0 to |log|
        invariant refused <==> exists l :: 0 <= l < k && log[l].content == revision.content
      {
        if log[k].number == revision.number || log[k].content == revision.content {
          refused := true;
        }
      }
    }

    /** Stores the text of a message unless it is known; `raised` when the handling stops with an error. */
    method PersistMessageRevision(id: nat, content: string, fault: Fault)
      returns (raised: bool, kind: Kind, number: nat)
      requires Valid(Contents())
      modifies this`records, this`logs, this`cursor, this`saved
      ensures raised <==> fault == Lost || fault == RecordOnly
      ensures raised ==> Contents() == Step(old(Contents()), Message(id, Some(content), fault)).(cursor := cursor)
      ensures !raised ==>
                var known := HasContent(LogOf(old(Contents()), id), content);
                && kind == (if known then Duplicate else if id in old(records) then Edited else New)
                && logs == (if known then old(logs) else old(logs)[id := Appended(LogOf(old(Contents()), id), content)])
                && records == (if id in old(records) then old(records) else old(records)[id := content])
                && (if known then
                      && saved == old(saved)
                      && Advanced(cursor, id) == Repeated(old(Contents()), id, content).cursor
                    else
                      saved == cursor == old(cursor) && number == |LogOf(old(Contents()), id)| + 1)
    {
      raised, kind, number := true, New, 0;
      if fault == Lost {
        return;
      }
      if id !in records {
        records := records[id := content];
        saved := cursor;
        if fault == RecordOnly {
          return;
        }
        logs := logs[id := [Revision(1, content)]];
        raised, number := false, 1;
        assert logs[id] == Appended([], content);
        return;
      }
      if fault == RecordOnly {
        return;
      }
      raised := false;
      var log := if id in logs then logs[id] else [];
      var latest, greatest := Latest(log);
      if latest.Some? && latest.value.content == content {
        assert log[|log| - 1].content == content;
        kind := Duplicate;
        return;
      }
      var revision := Revision(greatest + 1, content);
      var refused := Refused(log, revision);
      if refused {
        cursor := saved;
        kind := Duplicate;
        return;
      }
      logs := logs[id := log + [revision]];
      saved := cursor;
      kind, number := Edited, revision.number;
    }

    /** One turn of the collection loop. */
    method CollectMessage(message: Message) returns (ended: bool)
      requires Valid(Contents())
      modifies this
      ensures Contents() == Step(old(Contents()), message)
      ensures ended <==> Ends(old(Contents()), message)
    {
      ended := false;
      if message.content.None? {
        cursor := Advanced(cursor, message.id);
        return;
      }
      var raised, kind, number := PersistMessageRevision(message.id, message.content.value, message.fault);
      if raised {
        cursor := saved;
        return;
      }
      if kind == Duplicate {
        cursor := Advanced(cursor, message.id);
        return;
      }
      if message.fault == SnapshotLost {
        cursor := saved;
        return true;
      }
      cursor := Advanced(cursor, message.id);
      snapshots := snapshots + [SnapshotId(message.id, number)];
      saved := cursor;
    }

    method CollectSource(messages: seq<Message>)
      requires Valid(Contents())
      modifies this
      ensures Contents() == Run(old(Contents()), messages) && Valid(Contents())
    {
      for k := 0 to |messages|
        invariant Valid(Contents())
        invariant Run(Contents(), messages[k..]) == Run(old(Contents()), messages)
      {
        StepKeepsValid(Contents(), messages[k]);
        assert messages[k..][1..] == messages[k + 1..];
        var ended := CollectMessage(messages[k]);
        if ended {
          return;
        }
      }
      assert messages[|messages|..] == [];
      saved := cursor;
    }
  }

  // ---------- What a run promises ----------

  lemma AppendKeepsNumbers(log: seq<Revision>, content: string)
    requires WellNumbered(log)
    ensures WellNumbered(Appended(log, content))
  {
  }

  lemma StepKeepsValid(store: Store, message: Message)
    requires Valid(store)
    ensures Valid(Step(store, message))
  {
    hide WellNumbered, HasContent;
    if message.content.Some? {
      AppendKeepsNumbers(LogOf(store, message.id), message.content.value);
    }
  }

  lemma {:induction false} RunKeepsValid(store: Store, messages: seq<Message>)
    requires Valid(store)
    ensures Valid(Run(store, messages))
    decreases |messages|
  {
    if messages != [] {
      StepKeepsValid(store, messages[0]);
      if !Ends(store, messages[0]) {
        RunKeepsValid(Step(store, messages[0]), messages[1..]);
      }
    }
  }

  /** Logs and snapshots only grow at the end, and a raw record's text never changes. */
  ghost predicate Extends(later: Store, earlier: Store) {
    && (forall id :: LogOf(earlier, id) <= LogOf(later, id))
    && (forall id | id in earlier.records :: id in later.records && later.records[id] == earlier.records[id])
    && earlier.snapshots <= later.snapshots
  }

  lemma StepOnlyAppends(store: Store, message: Message)
    ensures Extends(Step(store, message), store)
  {
  }

  lemma {:induction false} RunOnlyAppends(store: Store, messages: seq<Message>)
    ensures Extends(Run(store, messages), store)
    decreases |messages|
  {
    if messages != [] {
      StepOnlyAppends(store, messages[0]);
      if !Ends(store, messages[0]) {
        RunOnlyAppends(Step(store, messages[0]), messages[1..]);
      }
    }
  }

  /** The messages of a run that are reached. */
  function Reached(store: Store, messages: seq<Message>): seq<Message>
    decreases |messages|
  {
    if messages == [] then []
    else if Ends(store, messages[0]) then [messages[0]]
    else [messages[0]] + Reached(Step(store, messages[0]), messages[1..])
  }

  predicate TextOf(message: Message, id: nat, stored: bool) {
    && message.id == id && message.content.Some? && message.fault != Lost
    && (stored ==> message.fault != RecordOnly)
  }

  /** The texts of message `id` that got past the point where its raw record could be lost, in order; with `stored`,
      only those whose revision was not lost either. */
  function Texts(messages: seq<Message>, id: nat, stored: bool): seq<string> {
    if messages == [] then [] else
      (if TextOf(messages[0], id, stored) then [messages[0].content.value] else []) + Texts(messages[1..], id, stored)
  }

  /** Each text at its first place only. */
  function FirstOccurrences(texts: seq<string>): seq<string> {
    if texts == [] then [] else
      var last := texts[|texts| - 1];
      var before := FirstOccurrences(texts[..|texts| - 1]);
      if last in before then before else before + [last]
  }

  function ContentsOf(log: seq<Revision>): seq<string> {
    seq(|log|, k requires 0 <= k < |log| => log[k].content)
  }

  lemma {:induction false} FirstOccurrencesOfDistinct(texts: seq<string>)
    requires forall k, l | 0 <= k < l < |texts| :: texts[k] != texts[l]
    ensures FirstOccurrences(texts) == texts
  {
    if texts != [] {
      FirstOccurrencesOfDistinct(texts[..|texts| - 1]);
    }
  }

  lemma {:induction false} FirstOccurrencesInSteps(a: seq<string>, b: seq<string>)
    ensures FirstOccurrences(FirstOccurrences(a) + b) == FirstOccurrences(a + b)
    decreases |b|
  {
    if b == [] {
      FirstOccurrencesDistinct(a);
      FirstOccurrencesOfDistinct(FirstOccurrences(a));
      assert a + b == a && FirstOccurrences(a) + b == FirstOccurrences(a);
    } else {
      FirstOccurrencesInSteps(a, b[..|b| - 1]);
      assert (a + b)[..|a + b| - 1] == a + b[..|b| - 1];
      assert (FirstOccurrences(a) + b)[..|FirstOccurrences(a) + b| - 1] == FirstOccurrences(a) + b[..|b| - 1];
    }
  }

  lemma {:induction false} FirstOccurrencesDistinct(texts: seq<string>)
    ensures forall k, l | 0 <= k < l < |FirstOccurrences(texts)| ::
              FirstOccurrences(texts)[k] != FirstOccurrences(texts)[l]
    ensures texts != [] ==> FirstOccurrences(texts) != [] && FirstOccurrences(texts)[0] == texts[0]
  {
    if texts != [] {
      FirstOccurrencesDistinct(texts[..|texts| - 1]);
    }
  }

  lemma AppendedContents(log: seq<Revision>, content: string)
    requires WellNumbered(log)
    ensures ContentsOf(Appended(log, content)) == FirstOccurrences(ContentsOf(log) + [content])
  {
    hide FirstOccurrences;
    var before := ContentsOf(log);
    AppendedOccurrence(before, content);
    if k :| 0 <= k < |log| && log[k].content == content {
      assert before[k] == content;
    } else {
      assert ContentsOf(Appended(log, content)) == before + [content];
    }
  }

  lemma StepAppends(store: Store, message: Message, id: nat)
    ensures LogOf(Step(store, message), id)
            == if TextOf(message, id, true) then Appended(LogOf(store, id), message.content.value)
               else LogOf(store, id)
  {
  }

  /** One message adds its text to the log of its own message, unless the log has it. */
  lemma StepAddsText(store: Store, message: Message, id: nat)
    requires Valid(store)
    ensures ContentsOf(LogOf(Step(store, message), id))
            == FirstOccurrences(ContentsOf(LogOf(store, id)) + Texts([message], id, true))
  {
    hide FirstOccurrences, Step, ContentsOf, Appended;
    var before := ContentsOf(LogOf(store, id));
    StepAppends(store, message, id);
    LogContentsDistinct(store, id);
    assert [message][1..] == [];
    assert Texts([message][1..], id, true) == [];
    if TextOf(message, id, true) {
      AppendedContents(LogOf(store, id), message.content.value);
      assert Texts([message], id, true) == [message.content.value];
    } else {
      FirstOccurrencesOfDistinct(before);
      assert before + Texts([message], id, true) == before;
    }
  }

  lemma LogContentsDistinct(store: Store, id: nat)
    requires Valid(store)
    ensures var contents := ContentsOf(LogOf(store, id));
      forall k, l | 0 <= k < l < |contents| :: contents[k] != contents[l]
  {
  }

  lemma AppendedOccurrence(texts: seq<string>, text: string)
    requires forall k, l | 0 <= k < l < |texts| :: texts[k] != texts[l]
    ensures FirstOccurrences(texts + [text]) == if text in texts then texts else texts + [text]
  {
    FirstOccurrencesOfDistinct(texts);
    assert (texts + [text])[..|texts|] == texts;
  }

  /** However often and in whatever order texts arrive, the log of a message is the list of its distinct texts in the
      order of first arrival: an edit back to an older text leaves it as it was. */
  lemma {:induction false} LogIsFirstOccurrences(store: Store, messages: seq<Message>, id: nat)
    requires Valid(store)
    ensures ContentsOf(LogOf(Run(store, messages), id))
            == FirstOccurrences(ContentsOf(LogOf(store, id)) + Texts(Reached(store, messages), id, true))
    decreases |messages|
  {
    hide FirstOccurrences, WellNumbered, Step, ContentsOf;
    var before := ContentsOf(LogOf(store, id));
    if messages == [] {
      LogContentsDistinct(store, id);
      FirstOccurrencesOfDistinct(before);
      assert before + [] == before;
    } else {
      StepAddsText(store, messages[0], id);
      if !Ends(store, messages[0]) {
        var next := Step(store, messages[0]);
        StepKeepsValid(store, messages[0]);
        LogIsFirstOccurrences(next, messages[1..], id);
        var one, rest := Texts([messages[0]], id, true), Texts(Reached(next, messages[1..]), id, true);
        FirstOccurrencesInSteps(before + one, rest);
        assert before + one + rest == before + (one + rest);
        assert Reached(store, messages)[1..] == Reached(next, messages[1..]);
        assert Texts(Reached(store, messages), id, true) == one + rest;
      }
    }
  }

  /** The raw record keeps the first text that reached it. */
  lemma {:induction false} RecordKeepsFirstText(store: Store, messages: seq<Message>, id: nat)
    requires Valid(store) && id !in store.records
    ensures var texts := Texts(Reached(store, messages), id, false);
      && (id in Run(store, messages).records <==> texts != [])
      && (texts != [] ==> Run(store, messages).records[id] == texts[0])
    decreases |messages|
  {
    if messages != [] {
      var next := Step(store, messages[0]);
      StepKeepsValid(store, messages[0]);
      if !Ends(store, messages[0]) {
        assert Reached(store, messages)[1..] == Reached(next, messages[1..]);
        if id in next.records {
          RunOnlyAppends(next, messages[1..]);
        } else {
          RecordKeepsFirstText(next, messages[1..], id);
        }
      }
    }
  }

  /** A log starts with its raw record's text exactly when the first text whose revision was stored is the first text
      that reached the record: a failure between the two commits, followed by an edit, separates them for good. */
  lemma StartsWithRecordExactlyWhen(messages: seq<Message>, id: nat)
    requires Texts(Reached(EMPTY, messages), id, true) != []
    ensures var final, reached := Run(EMPTY, messages), Reached(EMPTY, messages);
      && id in final.records && LogOf(final, id) != [] && Texts(reached, id, false) != []
      && (LogOf(final, id)[0].content == final.records[id]
          <==> Texts(reached, id, true)[0] == Texts(reached, id, false)[0])
  {
    hide Step, FirstOccurrences, WellNumbered, Texts, Reached, Run, HasContent, TextOf;
    var final, reached := Run(EMPTY, messages), Reached(EMPTY, messages);
    LogIsFirstOccurrences(EMPTY, messages, id);
    RecordKeepsFirstText(EMPTY, messages, id);
    StoredAmongAll(reached, id);
    var stored := Texts(reached, id, true);
    assert ContentsOf(LogOf(EMPTY, id)) + stored == stored;
    FirstOccurrencesDistinct(stored);
    assert ContentsOf(LogOf(final, id))[0] == stored[0];
  }

  lemma {:induction false} StoredAmongAll(messages: seq<Message>, id: nat)
    ensures Texts(messages, id, true) != [] ==> Texts(messages, id, false) != []
    ensures (forall m | m in messages :: m.fault != RecordOnly) ==>
            Texts(messages, id, true) == Texts(messages, id, false)
  {
    if messages != [] {
      StoredAmongAll(messages[1..], id);
    }
  }

  /** After a text was collected the log ends with it exactly when the text was new or already last. */
  lemma CollectedTextIsLastExactlyWhen(store: Store, message: Message)
    requires Valid(store) && message.content.Some? && !Stops(message)
    ensures var log, after := LogOf(store, message.id), LogOf(Step(store, message), message.id);
      && after != []
      && (after[|after| - 1].content == message.content.value
          <==> !HasContent(log, message.content.value) || log[|log| - 1].content == message.content.value)
  {
  }

  /** A revision whose snapshot was lost never gets one: its text is a duplicate from then on. */
  lemma {:induction false} LostSnapshotIsNeverMade(store: Store, messages: seq<Message>, id: nat, number: nat)
    requires Valid(store) && 1 <= number <= |LogOf(store, id)| && SnapshotId(id, number) !in store.snapshots
    ensures SnapshotId(id, number) !in Run(store, messages).snapshots
    decreases |messages|
  {
    hide WellNumbered;
    if messages != [] {
      StepKeepsValid(store, messages[0]);
      StepOnlyAppends(store, messages[0]);
      if !Ends(store, messages[0]) {
        LostSnapshotIsNeverMade(Step(store, messages[0]), messages[1..], id, number);
      }
    }
  }

  ghost predicate SnapshotsComplete(store: Store) {
    forall id, number | 1 <= number <= |LogOf(store, id)| :: SnapshotId(id, number) in store.snapshots
  }

  /** Message `k` brings a text that was neither in the log nor stored by an earlier message, and its snapshot fails. */
  ghost predicate LosesSnapshot(store: Store, messages: seq<Message>, k: nat) {
    && k < |messages| && messages[k].content.Some? && messages[k].fault == SnapshotLost
    && !HasContent(LogOf(store, messages[k].id), messages[k].content.value)
    && messages[k].content.value !in Texts(messages[..k], messages[k].id, true)
  }

  /** When every revision has its snapshot before a run, every revision has one after it exactly when no message of the
      run loses one. */
  lemma {:induction false} SnapshotsCompleteExactlyWhen(store: Store, messages: seq<Message>)
    requires Valid(store) && SnapshotsComplete(store)
    ensures SnapshotsComplete(Run(store, messages)) <==> !exists k: nat :: LosesSnapshot(store, messages, k)
    decreases |messages|
  {
    hide WellNumbered, HasContent, LosesSnapshot, Step, SnapshotsComplete, Valid;
    if messages == [] {
      NothingLostByNoMessage(store);
    } else {
      var m := messages[0];
      StepSnapshots(store, m);
      ShiftLoss(store, messages);
      if !Ends(store, m) {
        StepKeepsValid(store, m);
        SnapshotsCompleteExactlyWhen(Step(store, m), messages[1..]);
      }
    }
  }

  lemma NothingLostByNoMessage(store: Store)
    requires SnapshotsComplete(store)
    ensures SnapshotsComplete(Run(store, [])) && forall k: nat :: !LosesSnapshot(store, [], k)
  {
  }

  /** One message leaves the snapshots complete exactly when it does not end the run. */
  lemma StepSnapshots(store: Store, m: Message)
    requires Valid(store) && SnapshotsComplete(store)
    ensures SnapshotsComplete(Step(store, m)) <==> !Ends(store, m)
  {
    hide WellNumbered, HasContent;
    var next := Step(store, m);
    var number := |LogOf(store, m.id)| + 1;
    assert forall id | id != m.id :: LogOf(next, id) == LogOf(store, id);
    if Ends(store, m) {
      assert LogOf(next, m.id) == Appended(LogOf(store, m.id), m.content.value);
      assert number == |LogOf(next, m.id)| && SnapshotId(m.id, number) !in next.snapshots;
    }
  }

  lemma ShiftLoss(store: Store, messages: seq<Message>)
    requires messages != []
    ensures (exists k: nat :: LosesSnapshot(store, messages, k))
            <==> || Ends(store, messages[0])
                 || exists k: nat :: LosesSnapshot(Step(store, messages[0]), messages[1..], k)
  {
    hide LosesSnapshot;
    var next := Step(store, messages[0]);
    forall k: nat
      ensures if k == 0 then LosesSnapshot(store, messages, k) <==> Ends(store, messages[0])
              else LosesSnapshot(store, messages, k) <==> LosesSnapshot(next, messages[1..], k - 1)
    {
      LossLater(store, messages, k);
    }
    if k: nat :| LosesSnapshot(next, messages[1..], k) {
      assert LosesSnapshot(store, messages, k + 1);
    }
    if Ends(store, messages[0]) {
      assert LosesSnapshot(store, messages, 0);
    }
  }

  lemma LossLater(store: Store, messages: seq<Message>, k: nat)
    requires messages != []
    ensures if k == 0 then LosesSnapshot(store, messages, k) <==> Ends(store, messages[0])
            else LosesSnapshot(store, messages, k) <==> LosesSnapshot(Step(store, messages[0]), messages[1..], k - 1)
  {
    if 0 < k < |messages| && messages[k].content.Some? {
      var id, content := messages[k].id, messages[k].content.value;
      hide Step, HasContent;
      StepAppends(store, messages[0], id);
      if TextOf(messages[0], id, true) {
        AppendedHasExactly(LogOf(store, id), messages[0].content.value, content);
      }
      assert messages[..k][1..] == messages[1..][..k - 1];
    }
  }

  lemma AppendedHasExactly(log: seq<Revision>, added: string, content: string)
    ensures HasContent(Appended(log, added), content) <==> HasContent(log, content) || content == added
  {
    AppendedHas(log, added);
    if HasContent(log, content) {
      PrefixHas(log, Appended(log, added), content);
    }
  }

  /** One message is enough to lose a snapshot, and later collections do not make it. */
  lemma SnapshotCanBeLost(id: nat, text: string, later: seq<Message>)
    ensures var store := Run(EMPTY, [Message(id, Some(text), SnapshotLost)]);
      LogOf(store, id) == [Revision(1, text)] && SnapshotId(id, 1) !in Run(store, later).snapshots
  {
    var message := Message(id, Some(text), SnapshotLost);
    var store := Run(EMPTY, [message]);
    assert store == Step(EMPTY, message);
    StepKeepsValid(EMPTY, message);
    LostSnapshotIsNeverMade(store, later, id, 1);
  }

  // ---------- The cursor ----------

  lemma {:induction false} CursorNeverPassesUnseen(store: Store, messages: seq<Message>, bound: nat)
    requires forall c | c == store.cursor || c == store.saved :: c.Some? ==> c.value <= bound
    requires forall m | m in messages :: m.id <= bound
    ensures Run(store, messages).cursor.Some? ==> Run(store, messages).cursor.value <= bound
    decreases |messages|
  {
    if messages != [] && !Ends(store, messages[0]) {
      CursorNeverPassesUnseen(Step(store, messages[0]), messages[1..], bound);
    }
  }

  predicate Behind(id: nat, cursor: Option<nat>) {
    cursor.Some? && id <= cursor.value
  }

  /** What is committed stays committed: neither cursor falls below the committed one. */
  lemma {:induction false} CommittedCursorStays(store: Store, messages: seq<Message>, id: nat)
    requires Behind(id, store.saved) && Behind(id, store.cursor)
    ensures Behind(id, Run(store, messages).saved) && Behind(id, Run(store, messages).cursor)
    decreases |messages|
  {
    if messages != [] && !Ends(store, messages[0]) {
      CommittedCursorStays(Step(store, messages[0]), messages[1..], id);
    }
  }

  /** The committed cursor is never ahead of the cursor. */
  ghost predicate CursorAhead(store: Store) {
    forall id | Behind(id, store.saved) :: Behind(id, store.cursor)
  }

  /** The message throws the cursor back to its committed value: its handling failed before any commit, or its text was
      an older one whose insertion was undone. */
  predicate Resets(store: Store, m: Message) {
    && m.content.Some?
    && if Stops(m) then m.id in store.records || m.fault == Lost
       else var log := LogOf(store, m.id);
         HasContent(log, m.content.value) && log[|log| - 1].content != m.content.value
  }

  /** Handling the message commits the cursor as it stands before it. */
  predicate CommitsCursor(store: Store, m: Message) {
    && m.content.Some?
    && if Stops(m) then m.id !in store.records && m.fault != Lost
       else !HasContent(LogOf(store, m.id), m.content.value)
  }

  /** The message moves the cursor to its own number. */
  predicate Advances(store: Store, m: Message) {
    m.content.None? || (!Stops(m) && !Ends(store, m))
  }

  lemma StepMovesCursor(store: Store, m: Message)
    ensures var next := Step(store, m);
      && next.cursor == (var from := if Resets(store, m) then store.saved else store.cursor;
                         if Advances(store, m) then Advanced(from, m.id) else from)
      && next.saved == (if !CommitsCursor(store, m) then store.saved
                        else if Advances(store, m) then next.cursor else store.cursor)
    ensures CursorAhead(store) ==> CursorAhead(Step(store, m))
  {
    hide HasContent, Appended;
  }

  /** What the cursor has gained by now is committed before anything throws it back; the end of the run commits. */
  ghost predicate GainIsKept(store: Store, messages: seq<Message>)
    decreases |messages|
  {
    messages != [] ==>
      && !Resets(store, messages[0])
      && (CommitsCursor(store, messages[0]) || GainIsKept(Step(store, messages[0]), messages[1..]))
  }

  /** Message `k` is reached, moves the cursor to `id` or beyond, and that gain is kept. */
  ghost predicate PassedBy(store: Store, messages: seq<Message>, k: nat, id: nat)
    requires k < |messages|
    decreases k
  {
    var m, next := messages[0], Step(store, messages[0]);
    if k == 0 then
      && Advances(store, m) && id <= m.id
      && (CommitsCursor(store, m) || GainIsKept(next, messages[1..]))
    else !Ends(store, m) && PassedBy(next, messages[1..], k - 1, id)
  }

  /** A message number, that of a failed message or any other, is behind the committed cursor after a run exactly when
      it was before, or was pending and kept, or some message of the run passed it and that was kept. */
  lemma {:induction false} NumberIsPassedExactlyWhen(store: Store, messages: seq<Message>, id: nat)
    requires CursorAhead(store)
    ensures Behind(id, Run(store, messages).saved)
            <==> || Behind(id, store.saved)
                 || (Behind(id, store.cursor) && GainIsKept(store, messages))
                 || Passed(store, messages, id)
    decreases |messages|
  {
    if messages != [] {
      hide Step, Resets, CommitsCursor, Advances;
      var m, rest := messages[0], messages[1..];
      var next := Step(store, m);
      StepMovesCursor(store, m);
      ResetsOrCommits(store, m);
      if Ends(store, m) {
        EndsCommits(store, m);
        assert Run(store, messages) == next;
        assert forall k: nat :: !PassedAt(store, messages, k, id);
      } else {
        NumberIsPassedExactlyWhen(next, rest, id);
        ShiftPassed(store, messages, id);
      }
    }
  }

  /** Some message of the run passes the number, and that is kept. */
  ghost predicate Passed(store: Store, messages: seq<Message>, id: nat) {
    exists k: nat :: PassedAt(store, messages, k, id)
  }

  ghost predicate PassedAt(store: Store, messages: seq<Message>, k: nat, id: nat) {
    k < |messages| && PassedBy(store, messages, k, id)
  }

  lemma ShiftPassed(store: Store, messages: seq<Message>, id: nat)
    requires messages != [] && !Ends(store, messages[0])
    ensures Passed(store, messages, id)
            <==> PassedBy(store, messages, 0, id) || Passed(Step(store, messages[0]), messages[1..], id)
  {
    hide Step, Advances, CommitsCursor;
    var next, rest := Step(store, messages[0]), messages[1..];
    if k: nat :| PassedAt(store, messages, k, id) {
      if k > 0 {
        assert PassedAt(next, rest, k - 1, id);
      }
    }
    if PassedBy(store, messages, 0, id) {
      assert PassedAt(store, messages, 0, id);
    }
    if k: nat :| PassedAt(next, rest, k, id) {
      assert PassedAt(store, messages, k + 1, id);
    }
  }

  lemma ResetsOrCommits(store: Store, m: Message)
    ensures !(Resets(store, m) && CommitsCursor(store, m))
  {
  }

  lemma EndsCommits(store: Store, m: Message)
    ensures Ends(store, m) ==> CommitsCursor(store, m) && !Advances(store, m) && !Resets(store, m)
  {
  }

  /** A run in which nothing fails has every text in its log, ... */
  lemma {:induction false} NothingLostWithoutFaults(store: Store, messages: seq<Message>, m: Message)
    requires Valid(store) && m in messages && m.content.Some?
    requires forall n | n in messages :: n.fault == NoFault
    ensures HasContent(LogOf(Run(store, messages), m.id), m.content.value)
    decreases |messages|
  {
    var next := Step(store, messages[0]);
    StepKeepsValid(store, messages[0]);
    if m == messages[0] {
      StepAppends(store, m, m.id);
      AppendedHas(LogOf(store, m.id), m.content.value);
      RunOnlyAppends(next, messages[1..]);
      assert LogOf(next, m.id) <= LogOf(Run(next, messages[1..]), m.id);
      PrefixHas(LogOf(next, m.id), LogOf(Run(next, messages[1..]), m.id), m.content.value);
    } else {
      NothingLostWithoutFaults(next, messages[1..], m);
    }
  }

  lemma AppendedHas(log: seq<Revision>, content: string)
    ensures HasContent(Appended(log, content), content)
  {
    if !HasContent(log, content) {
      assert Appended(log, content)[|log|].content == content;
    }
  }

  lemma PrefixHas(prefix: seq<Revision>, log: seq<Revision>, content: string)
    requires prefix <= log && HasContent(prefix, content)
    ensures HasContent(log, content)
  {
  }

  /** ... but a text whose handling failed is passed for good once a later message with a greater number is stored: the
      committed cursor is then beyond it, and its log is what it was. */
  lemma FailedTextIsPassed(store: Store, failed: Message, stored: Message, rest: seq<Message>)
    requires Valid(store) && failed.content.Some? && Stops(failed)
    requires failed.id < stored.id && stored.content.Some? && stored.fault == NoFault
    requires !HasContent(LogOf(store, stored.id), stored.content.value)
    requires forall m | m in rest :: m.id != failed.id
    ensures var final := Run(store, [failed, stored] + rest);
      && Behind(failed.id, final.saved)
      && LogOf(final, failed.id) == LogOf(store, failed.id)
  {
    var messages := [failed, stored] + rest;
    var next := Step(store, failed);
    var after := Step(next, stored);
    assert messages[1..] == [stored] + rest && messages[1..][1..] == rest;
    StepAppends(store, failed, stored.id);
    StepAppends(store, failed, failed.id);
    StepAppends(next, stored, failed.id);
    assert Run(store, messages) == Run(after, rest);
    CommittedCursorStays(after, rest, failed.id);
    OtherLogsStay(after, rest, failed.id);
  }

  lemma {:induction false} OtherLogsStay(store: Store, messages: seq<Message>, id: nat)
    requires forall m | m in messages :: m.id != id
    ensures LogOf(Run(store, messages), id) == LogOf(store, id)
    decreases |messages|
  {
    if messages != [] {
      StepAppends(store, messages[0], id);
      if !Ends(store, messages[0]) {
        OtherLogsStay(Step(store, messages[0]), messages[1..], id);
      }
    }
  }
}
