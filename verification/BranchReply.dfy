/** The reply candidates of one turn, in `plugins/branch-reply/handler.js`. */
module BranchReply {
  import opened BranchTexts
  import opened Text
  import opened Wrappers

  datatype Source = Original | Regenerated

  /** The id is the number that `toCandidates` puts behind the turn's. */
  datatype Candidate = Candidate(id: nat, text: string, source: Source)

  datatype Status = Ready | Accepted

  datatype Record = Record(
    status: Status, candidates: seq<Candidate>, selected: nat, accepted: Option<nat>, runtimeId: Option<string>)

  /** The record of the accepted reply, which replaces the narration in the model's history. */
  datatype Adopted = Adopted(text: string, runtimeId: Option<string>)

  datatype Store = Store(record: Option<Record>, adopted: Option<Adopted>)

  datatype Action =
    | Seed(narration: string, runtimeId: Option<string>)
    | Create(count: Option<int>, chunks: Option<seq<string>>, selected: Option<nat>)
    | Accept(id: nat)

  const DEFAULT_COUNT := 3
  const MAX_COUNT := 6
  const MAX_VARIANTS := 2

  function ToCandidates(texts: seq<string>): seq<Candidate>
  {
    seq(|texts|, i requires 0 <= i < |texts| =>
      Candidate(i + 1, texts[i], if i == 0 then Original else Regenerated))
  }

  predicate HasId(candidates: seq<Candidate>, id: nat)
  {
    exists i :: 0 <= i < |candidates| && candidates[i].id == id
  }

  /** The first candidate with this id. */
  function Find(candidates: seq<Candidate>, id: nat): Candidate
    requires HasId(candidates, id)
  {
    if candidates[0].id == id then candidates[0] else Find(candidates[1..], id)
  }

  function Texts(candidates: seq<Candidate>): seq<string>
  {
    seq(|candidates|, i requires 0 <= i < |candidates| => candidates[i].text)
  }

  /** Candidates are numbered from 1, their texts proper; the first is the original, which is there. */
  predicate Numbered(candidates: seq<Candidate>)
  {
    && candidates != [] && Proper(Texts(candidates))
    && forall i :: 0 <= i < |candidates| ==>
         candidates[i].id == i + 1 && candidates[i].source == if i == 0 then Original else Regenerated
  }

  /** What holds of a turn whose narration was `narration`. */
  predicate Valid(store: Store, narration: string)
  {
    match store.record
    case None => store.adopted.None?
    case Some(record) =>
      && Numbered(record.candidates) && record.candidates[0].text == narration
      && HasId(record.candidates, record.selected)
      && (record.status == Accepted <==> store.adopted.Some?)
      && (record.status == Accepted <==> record.accepted.Some?)
      && (record.status == Accepted ==>
            && HasId(record.candidates, record.accepted.value) && record.selected == record.accepted.value
            && store.adopted == Some(Adopted(Find(record.candidates, record.accepted.value).text, record.runtimeId)))
  }

  /** `seedFromNarrative`: what it proposes, if anything. */
  function Seeded(store: Store, narration: string, runtimeId: Option<string>): Store
  {
    var text := Trim(narration);
    if text == "" || store.record.Some? then store
    else store.(record := Some(Record(Ready, ToCandidates([text]), 1, None, runtimeId)))
  }

  predicate CountIsGood(count: Option<int>) { count.Some? ==> 1 <= count.value <= MAX_COUNT }

  /** The texts of a new candidate set: the original, then what the model made of it. */
  function NewTexts(base: string, count: nat, chunks: Option<seq<string>>): seq<string>
    requires count >= 1
  {
    var wanted := if count - 1 < MAX_VARIANTS then count - 1 else MAX_VARIANTS;
    var variants := if chunks.None? || wanted == 0 then [] else Take(Usable(Deduped(chunks.value), Trim(base)), wanted);
    Take(Deduped([base] + variants), count)
  }

  /** `createCandidates` computes from the store it has read what to write. */
  function Created(read: Store, count: Option<int>, chunks: Option<seq<string>>, selected: Option<nat>): Option<Record>
  {
    if !CountIsGood(count) || read.record.None? || read.record.value.candidates == []
       || read.record.value.candidates[0].text == "" then None
    else
      var n := if count.Some? then count.value else DEFAULT_COUNT;
      var candidates := ToCandidates(NewTexts(read.record.value.candidates[0].text, n, chunks));
      var id := if selected.Some? then selected.value else 1;
      if HasId(candidates, id) then Some(Record(Ready, candidates, id, None, read.record.value.runtimeId)) else None
  }

  /** Writing it: an adopted reply is dropped if the record that was read was accepted. */
  function Replaced(store: Store, read: Store, record: Record): Store
  {
    Store(Some(record), if read.record.Some? && read.record.value.status == Accepted then None else store.adopted)
  }

  function AcceptedOf(store: Store, id: nat): Store
  {
    if store.record.None? || !HasId(store.record.value.candidates, id) then store
    else
      var record := store.record.value;
      Store(Some(record.(status := Accepted, selected := id, accepted := Some(id))),
            Some(Adopted(Find(record.candidates, id).text, record.runtimeId)))
  }

  function Step(store: Store, action: Action): Store
  {
    match action
    case Seed(narration, runtimeId) => Seeded(store, narration, runtimeId)
    case Create(count, chunks, selected) =>
      var record := Created(store, count, chunks, selected);
      if record.Some? then Replaced(store, store, record.value) else store
    case Accept(id) => AcceptedOf(store, id)
  }

  lemma TakeIsProper(texts: seq<string>, limit: nat)
    requires Proper(texts)
    ensures Proper(Take(texts, limit))
  {
  }

  lemma NewTextsKeepOriginal(base: string, count: nat, chunks: Option<seq<string>>)
    requires count >= 1 && base != "" && Trim(base) == base
    ensures var texts := NewTexts(base, count, chunks);
            Proper(texts) && 0 < |texts| <= count && texts[0] == base
  {
    var wanted := if count - 1 < MAX_VARIANTS then count - 1 else MAX_VARIANTS;
    var variants := if chunks.None? || wanted == 0 then [] else Take(Usable(Deduped(chunks.value), Trim(base)), wanted);
    var all := [base] + variants;
    DedupedIsProper(all);
    DedupedStarts(all);
    TakeIsProper(Deduped(all), count);
  }

  lemma ProperLast(texts: seq<string>, n: nat)
    requires Proper(texts) && n + 1 == |texts|
    ensures Proper(texts[..n]) && texts[n] != "" && Trim(texts[n]) == texts[n] && texts[n] !in texts[..n]
  {
  }

  lemma DedupedNext(texts: seq<string>, before: seq<string>, last: string)
    requires texts == before + [last] && Deduped(before) == before
    requires last != "" && Trim(last) == last && last !in before
    ensures Deduped(texts) == texts
  {
    assert texts[..|texts| - 1] == before && texts[|texts| - 1] == last;
  }

  lemma {:induction false} DedupedOfProper(texts: seq<string>)
    requires Proper(texts)
    ensures Deduped(texts) == texts
  {
    if texts == [] {
    } else {
      var n := |texts| - 1;
      ProperLast(texts, n);
      DedupedOfProper(texts[..n]);
      DedupedNext(texts, texts[..n], texts[n]);
    }
  }

  /**
    * The new set is the original and what the model made of it: the first of the different texts that are
    * neither the original nor too long, two at most and no more than were asked for.
    */
  lemma NewTextsAre(base: string, count: nat, chunks: Option<seq<string>>)
    requires count >= 1 && base != "" && Trim(base) == base
    ensures NewTexts(base, count, chunks) ==
            [base] + if chunks.None? then []
                     else Take(Usable(Deduped(chunks.value), base), if count < 3 then count - 1 else 2)
  {
    var wanted := if count < 3 then count - 1 else 2;
    if chunks.Some? {
      var usable := Usable(Deduped(chunks.value), base);
      DedupedIsProper(chunks.value);
      UsableIsProper(Deduped(chunks.value), base);
      UsableHas(Deduped(chunks.value), base, base);
      TakeIsProper(usable, wanted);
      OriginalFirst(base, Take(usable, wanted));
    } else {
      OriginalFirst(base, []);
    }
  }

  lemma OriginalFirst(base: string, variants: seq<string>)
    requires Proper(variants) && base !in variants && base != "" && Trim(base) == base
    ensures Deduped([base] + variants) == [base] + variants
  {
    var all := [base] + variants;
    assert forall i :: 1 <= i < |all| ==> all[i] == variants[i - 1];
    DedupedOfProper(all);
  }

  lemma CandidatesAreNumbered(texts: seq<string>)
    requires texts != [] && Proper(texts)
    ensures Numbered(ToCandidates(texts)) && ToCandidates(texts)[0].text == texts[0]
    ensures HasId(ToCandidates(texts), 1)
  {
    assert Texts(ToCandidates(texts)) == texts;
    assert ToCandidates(texts)[0].id == 1;
  }

  lemma CreatedIsNumbered(read: Store, narration: string, count: Option<int>,
                          chunks: Option<seq<string>>, selected: Option<nat>)
    requires Valid(read, narration) && Created(read, count, chunks, selected).Some?
    ensures var record := Created(read, count, chunks, selected).value;
            && Numbered(record.candidates) && record.candidates[0].text == narration
            && HasId(record.candidates, record.selected) && record.status == Ready && record.accepted.None?
  {
    var n := if count.Some? then count.value else DEFAULT_COUNT;
    assert Texts(read.record.value.candidates)[0] == narration;
    NewTextsKeepOriginal(narration, n, chunks);
    CandidatesAreNumbered(NewTexts(narration, n, chunks));
  }

  lemma {:induction false} FindNumbered(candidates: seq<Candidate>, first: nat, id: nat)
    requires forall i :: 0 <= i < |candidates| ==> candidates[i].id == first + i
    ensures HasId(candidates, id) <==> first <= id < first + |candidates|
    ensures HasId(candidates, id) ==> Find(candidates, id) == candidates[id - first]
  {
    if first <= id < first + |candidates| {
      assert candidates[id - first].id == id;
      if id != first {
        FindNumbered(candidates[1..], first + 1, id);
      }
    }
  }

  /** When a new set is made: of 1 to 6 candidates, 3 if none is named, with the one selected among them. */
  lemma CreatedIff(read: Store, narration: string, count: Option<int>, chunks: Option<seq<string>>,
                   selected: Option<nat>)
    requires Valid(read, narration) && read.record.Some?
    ensures var wanted := if count.Some? then count.value else 3;
            var id := if selected.Some? then selected.value else 1;
            var record := Created(read, count, chunks, selected);
            && (record.Some? <==> 1 <= wanted <= 6 && 1 <= id <= |NewTexts(narration, wanted, chunks)|)
            && (record.Some? ==>
                  && Texts(record.value.candidates) == NewTexts(narration, wanted, chunks)
                  && record.value.selected == id && record.value.runtimeId == read.record.value.runtimeId)
  {
    assert Texts(read.record.value.candidates)[0] == narration;
    var wanted := if count.Some? then count.value else 3;
    if 1 <= wanted <= 6 {
      var texts := NewTexts(narration, wanted, chunks);
      FindNumbered(ToCandidates(texts), 1, if selected.Some? then selected.value else 1);
      assert Texts(ToCandidates(texts)) == texts;
    }
  }

  /** Every action keeps a turn valid, and the narration its first candidate. */
  lemma StepKeepsValid(store: Store, narration: string, action: Action)
    requires Valid(store, narration)
    requires action.Seed? && store.record.None? ==> Trim(action.narration) == narration
    ensures Valid(Step(store, action), narration)
  {
    match action
    case Seed(text, runtimeId) =>
      if Trim(text) != "" {
        TrimTwice(text);
        CandidatesAreNumbered([Trim(text)]);
      }
    case Create(count, chunks, selected) =>
      if Created(store, count, chunks, selected).Some? {
        CreatedIsNumbered(store, narration, count, chunks, selected);
      }
    case Accept(id) =>
  }

  /** A reply is accepted by its number, counted from 1: it becomes the turn's text, and the set stays. */
  lemma AcceptAdopts(store: Store, narration: string, id: nat)
    requires Valid(store, narration)
    ensures var next := Step(store, Accept(id));
            if store.record.Some? && 1 <= id <= |store.record.value.candidates| then
              var record := store.record.value;
              && next.adopted == Some(Adopted(record.candidates[id - 1].text, record.runtimeId))
              && next.record == Some(Record(Accepted, record.candidates, id, Some(id), record.runtimeId))
            else next == store
  {
    if store.record.Some? {
      FindNumbered(store.record.value.candidates, 1, id);
    }
  }

  function RunOf(store: Store, actions: seq<Action>): Store
  {
    if actions == [] then store else Step(RunOf(store, actions[..|actions| - 1]), actions[|actions| - 1])
  }

  /** The narration of the first seed that takes effect. */
  function FirstSeed(actions: seq<Action>): Option<string>
  {
    if actions == [] then None
    else
      var before, last := FirstSeed(actions[..|actions| - 1]), actions[|actions| - 1];
      if before.Some? then before
      else if last.Seed? && Trim(last.narration) != "" then Some(Trim(last.narration))
      else None
  }

  const EMPTY := Store(None, None)

  /**
    * Over any actions on a turn, the narration of the first seed that takes effect stays the first candidate,
    * whatever later seeds say, and only the turn's texts are adopted.
    */
  lemma {:induction false} RunKeepsValid(actions: seq<Action>)
    ensures match FirstSeed(actions)
            case None => RunOf(EMPTY, actions) == EMPTY
            case Some(narration) => RunOf(EMPTY, actions).record.Some? && Valid(RunOf(EMPTY, actions), narration)
  {
    if actions == [] {
    } else {
      var before, last := actions[..|actions| - 1], actions[|actions| - 1];
      RunKeepsValid(before);
      if FirstSeed(actions).Some? {
        StepKeepsValid(RunOf(EMPTY, before), FirstSeed(actions).value, last);
      }
    }
  }

  /**
    * `createCandidates` waits for the model between reading the turn and writing it. If the turn has changed
    * meanwhile, the result is valid exactly when no reply is adopted now or one was when it read.
    */
  lemma LateWriteIsValidIff(read: Store, store: Store, narration: string, action: Action)
    requires Valid(read, narration) && Valid(store, narration) && action.Create?
    requires Created(read, action.count, action.chunks, action.selected).Some?
    ensures var record := Created(read, action.count, action.chunks, action.selected).value;
            Valid(Replaced(store, read, record), narration) <==>
            store.adopted.None? || read.adopted.Some?
  {
    CreatedIsNumbered(read, narration, action.count, action.chunks, action.selected);
  }

  lemma RunNext(actions: seq<Action>, action: Action)
    ensures RunOf(EMPTY, actions + [action]) == Step(RunOf(EMPTY, actions), action)
  {
    assert (actions + [action])[..|actions|] == actions;
  }

  lemma SeedThenAccept(text: string)
    requires Trim(text) != ""
    ensures var read := RunOf(EMPTY, [Seed(text, None)]);
            && read.record.Some? && read.record.value.candidates == ToCandidates([Trim(text)])
            && Valid(read, Trim(text)) && read.adopted.None?
            && RunOf(EMPTY, [Seed(text, None), Accept(1)]) == AcceptedOf(read, 1)
            && Valid(AcceptedOf(read, 1), Trim(text)) && AcceptedOf(read, 1).adopted.Some?
  {
    var read := Step(EMPTY, Seed(text, None));
    assert [] + [Seed(text, None)] == [Seed(text, None)];
    assert [Seed(text, None)] + [Accept(1)] == [Seed(text, None), Accept(1)];
    RunNext([], Seed(text, None));
    RunNext([Seed(text, None)], Accept(1));
    TrimTwice(text);
    CandidatesAreNumbered([Trim(text)]);
    StepKeepsValid(EMPTY, Trim(text), Seed(text, None));
    StepKeepsValid(read, Trim(text), Accept(1));
  }

  /**
    * A run that ends so: the turn is seeded, a new set is asked for, the reply is accepted while the model
    * works, and then the set is written.
    */
  lemma LateWriteLeavesAdopted(text: string)
    requires Trim(text) != ""
    ensures var read := RunOf(EMPTY, [Seed(text, None)]);
            var record := Created(read, Some(1), None, None);
            && record.Some?
            && !Valid(Replaced(RunOf(EMPTY, [Seed(text, None), Accept(1)]), read, record.value), Trim(text))
  {
    var read := RunOf(EMPTY, [Seed(text, None)]);
    SeedThenAccept(text);
    TrimTwice(text);
    NewTextsKeepOriginal(Trim(text), 1, None);
    CandidatesAreNumbered(NewTexts(Trim(text), 1, None));
    LateWriteIsValidIff(read, AcceptedOf(read, 1), Trim(text), Create(Some(1), None, None));
  }
}
