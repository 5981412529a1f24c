/** The conversation of one user in one chat with the bot, as the handlers and the
    conversation routing table define it. Each turn takes the current state, the
    per-user data and one inbound message, and yields the next state, the new
    per-user data, the replies sent and the search made, if any. The train search
    is a parameter; transport, per-user dispatch and logging are outside. */
module Dialogue {
  import opened Wrappers
  import opened Text
  import Dates
  import opened Results

  /** The conversation states. `Ended` is "no conversation in progress": the
      state before the first start command and after any handler returns END. */
  datatype State = FromStation | ToStation | Date | Ended

  /** The per-user data dictionary: each key is absent until a handler stores it.
      Nothing ever clears it; a new conversation overwrites the keys one by one. */
  datatype Session = Session(from: Option<string>, to: Option<string>, date: Option<string>)

  const EmptySession := Session(None, None, None)

  /** One inbound message, as the handlers' filters see it: the three commands the
      bot registers, any other command, a plain text message, or a message with no
      text at all. */
  datatype Input =
    | StartCommand(firstName: string)
    | CancelCommand
    | HelpCommand
    | OtherCommand
    | Message(text: string)
    | NoText

  /** The replies the bot sends, with the values they show. */
  datatype Reply =
    | Greeting(firstName: string)
    | AskDestination(from: string)
    | AskDate(from: string, to: string)
    | InvalidDate
    | Searching
    | NoTrains
    | Trains(listing: Listing)
    | Cancelled
    | HelpText

  /** The result of one turn. `search` is the query passed to the search
      collaborator during the turn, if it was called. */
  datatype Turn = Turn(state: State, session: Session, replies: seq<Reply>, search: Option<Query>)

  /** The keys each state's handler reads are present: `to_station` reads the
      origin, `search_date` reads origin and destination. */
  predicate Consistent(st: State, s: Session) {
    match st
    case ToStation => s.from.Some?
    case Date => s.from.Some? && s.to.Some?
    case _ => true
  }

  /** The edges of the conversation: start, the three questions in order, the
      date retry, cancel from any active state, and staying put. */
  predicate Edge(st: State, next: State) {
    || st == next
    || (st == Ended && next == FromStation)
    || (st == FromStation && next == ToStation)
    || (st == ToStation && next == Date)
    || (st != Ended && next == Ended)
  }

  function Silent(st: State, s: Session): Turn {
    Turn(st, s, [], None)
  }

  /** `search_date`: strip the reply and check it as a date. A bad date is
      answered with the format hint and changes nothing; a good one is stored as
      typed, announced, searched for with the stored stations, and answered with
      either the no-trains message or the listing, ending the conversation. */
  function SearchDate(s: Session, text: string, search: Query -> seq<TrainRecord>): (t: Turn)
    requires s.from.Some? && s.to.Some?
    ensures Dates.ParseDate(Strip(text)).None? ==> t == Turn(Date, s, [InvalidDate], None)
    ensures Dates.ParseDate(Strip(text)).Some? ==>
      && t.state == Ended
      && t.session == s.(date := Some(Strip(text)))
      && t.search == Some(Query(s.from.value, s.to.value, Strip(text)))
      && |t.replies| == 2 && t.replies[0] == Searching
    ensures Dates.ParseDate(Strip(text)).Some? ==>
      var q := Query(s.from.value, s.to.value, Strip(text));
      t.replies[1] == (if search(q) == [] then NoTrains else Trains(FormatListing(q, search(q))))
  {
    var dateText := Strip(text);
    if Dates.ParseDate(dateText).None? then Turn(Date, s, [InvalidDate], None)
    else
      var s' := s.(date := Some(dateText));
      var q := Query(s'.from.value, s'.to.value, s'.date.value);
      var trains := search(q);
      if |trains| == 0 then Turn(Ended, s', [Searching, NoTrains], Some(q))
      else Turn(Ended, s', [Searching, Trains(FormatListing(q, trains))], Some(q))
  }

  /** One turn of the conversation. Outside a conversation only the start command
      (and help) is answered; inside one, plain text goes to the current
      question, cancel ends it, and every other message is ignored, a repeated
      start included. Help is answered everywhere and changes nothing. */
  function Step(st: State, s: Session, input: Input, search: Query -> seq<TrainRecord>): (t: Turn)
    requires Consistent(st, s)
    ensures Consistent(t.state, t.session)
    ensures Edge(st, t.state)
    ensures t.search.Some? <==> st == Date && input.Message? && Dates.ParseDate(Strip(input.text)).Some?
    ensures t.search.Some? ==>
      && t.search.value == Query(s.from.value, s.to.value, Strip(input.text))
      && t.session.date == Some(t.search.value.date)
      && t.state == Ended
    ensures t.session.from != s.from ==> st == FromStation && input.Message?
    ensures t.session.to != s.to ==> st == ToStation && input.Message?
    ensures t.session.date != s.date ==> t.search.Some?
  {
    match input
    case HelpCommand => Turn(st, s, [HelpText], None)
    case StartCommand(name) =>
      if st == Ended then Turn(FromStation, s, [Greeting(name)], None) else Silent(st, s)
    case CancelCommand =>
      if st == Ended then Silent(st, s) else Turn(Ended, s, [Cancelled], None)
    case OtherCommand => Silent(st, s)
    case NoText => Silent(st, s)
    case Message(text) =>
      match st
      case Ended => Silent(st, s)
      case FromStation =>
        var from := Strip(text);
        Turn(ToStation, s.(from := Some(from)), [AskDestination(from)], None)
      case ToStation =>
        var to := Strip(text);
        Turn(Date, s.(to := Some(to)), [AskDate(s.from.value, to)], None)
      case Date => SearchDate(s, text, search)
  }

  /** The effect of a sequence of turns. `states` lists every state visited, the
      starting one first. */
  datatype Trace = Trace(state: State, session: Session, states: seq<State>, replies: seq<Reply>, searches: seq<Query>)

  function OptionToSeq<T>(o: Option<T>): seq<T> {
    if o.Some? then [o.value] else []
  }

  /** The conversation over several messages. Every state visited is reached
      along an edge, every search is made with a date that passed the check, and
      there is at most one search per message. */
  function Run(st: State, s: Session, inputs: seq<Input>, search: Query -> seq<TrainRecord>): (tr: Trace)
    requires Consistent(st, s)
    ensures Consistent(tr.state, tr.session)
    ensures |tr.states| == |inputs| + 1 && tr.states[0] == st && tr.states[|inputs|] == tr.state
    ensures forall i :: 0 <= i < |inputs| ==> Edge(tr.states[i], tr.states[i + 1])
    ensures forall q :: q in tr.searches ==> Dates.ParseDate(q.date).Some?
    ensures |tr.searches| <= |inputs|
    decreases |inputs|
  {
    if |inputs| == 0 then Trace(st, s, [st], [], [])
    else
      var t := Step(st, s, inputs[0], search);
      var rest := Run(t.state, t.session, inputs[1..], search);
      Trace(rest.state, rest.session, [st] + rest.states, t.replies + rest.replies,
            OptionToSeq(t.search) + rest.searches)
  }

  /** A bad date keeps the conversation at the date question with nothing stored
      and nothing searched; the hint is repeated. */
  lemma BadDateRetries(s: Session, text: string, search: Query -> seq<TrainRecord>)
    requires Consistent(Date, s)
    requires Dates.ParseDate(Strip(text)).None?
    ensures Step(Date, s, Message(text), search) == Turn(Date, s, [InvalidDate], None)
  {
  }

  /** An empty search result is answered with the no-trains message and ends the
      conversation; no listing and no link are produced. */
  lemma EmptyResultEnds(s: Session, text: string, search: Query -> seq<TrainRecord>)
    requires Consistent(Date, s)
    requires Dates.ParseDate(Strip(text)).Some?
    requires search(Query(s.from.value, s.to.value, Strip(text))) == []
    ensures Step(Date, s, Message(text), search).replies == [Searching, NoTrains]
    ensures Step(Date, s, Message(text), search).state == Ended
  {
  }

  /** A non-empty result is answered with the listing for exactly the stored
      stations, the typed date and the trains returned. */
  lemma ResultsListed(s: Session, text: string, search: Query -> seq<TrainRecord>)
    requires Consistent(Date, s)
    requires Dates.ParseDate(Strip(text)).Some?
    requires search(Query(s.from.value, s.to.value, Strip(text))) != []
    ensures var q := Query(s.from.value, s.to.value, Strip(text));
      Step(Date, s, Message(text), search).replies == [Searching, Trains(FormatListing(q, search(q)))]
  {
    assert Step(Date, s, Message(text), search) == SearchDate(s, text, search);
  }

  /** The station questions store the stripped reply under their own key only. */
  lemma StationsStoredStripped(s: Session, text: string, search: Query -> seq<TrainRecord>)
    ensures Step(FromStation, s, Message(text), search) ==
      Turn(ToStation, s.(from := Some(Strip(text))), [AskDestination(Strip(text))], None)
    ensures Consistent(ToStation, s) ==>
      (Step(ToStation, s, Message(text), search) ==
       Turn(Date, s.(to := Some(Strip(text))), [AskDate(s.from.value, Strip(text))], None))
  {
  }

  /** Cancel ends any active conversation without searching and leaves the
      stored data as it was. */
  lemma CancelEnds(st: State, s: Session, search: Query -> seq<TrainRecord>)
    requires st != Ended && Consistent(st, s)
    ensures Step(st, s, CancelCommand, search) == Turn(Ended, s, [Cancelled], None)
  {
  }

  /** Help changes neither state nor data. */
  lemma HelpChangesNothing(st: State, s: Session, search: Query -> seq<TrainRecord>)
    requires Consistent(st, s)
    ensures Step(st, s, HelpCommand, search) == Turn(st, s, [HelpText], None)
  {
  }

  /** The start command opens a conversation only when none is in progress, and
      it keeps whatever the data held from an earlier conversation. */
  lemma StartOnlyOutsideConversation(st: State, s: Session, name: string, search: Query -> seq<TrainRecord>)
    requires Consistent(st, s)
    ensures st == Ended ==> Step(st, s, StartCommand(name), search) == Turn(FromStation, s, [Greeting(name)], None)
    ensures st != Ended ==> Step(st, s, StartCommand(name), search) == Turn(st, s, [], None)
  {
  }

  /** The keys are filled in question order: a destination is only stored after
      an origin, and a date only after both. */
  predicate FilledInOrder(s: Session) {
    && (s.to.Some? ==> s.from.Some?)
    && (s.date.Some? ==> s.to.Some?)
  }

  /** Every turn keeps the keys filled in question order. */
  lemma StepFillsInOrder(st: State, s: Session, input: Input, search: Query -> seq<TrainRecord>)
    requires Consistent(st, s) && FilledInOrder(s)
    ensures FilledInOrder(Step(st, s, input, search).session)
  {
  }

  /** One message more: the turn, then the rest of the run from where it left off. */
  lemma RunUnfold(st: State, s: Session, inputs: seq<Input>, search: Query -> seq<TrainRecord>)
    requires Consistent(st, s) && |inputs| > 0
    ensures var t := Step(st, s, inputs[0], search);
      var rest := Run(t.state, t.session, inputs[1..], search);
      Run(st, s, inputs, search).states == [st] + rest.states
      && Run(st, s, inputs, search).searches == OptionToSeq(t.search) + rest.searches
      && Run(st, s, inputs, search).session == rest.session
  {
  }

  /** Plain text messages carrying the given texts, in order. */
  function Messages(texts: seq<string>): (inputs: seq<Input>)
    ensures |inputs| == |texts|
    ensures forall i :: 0 <= i < |texts| ==> inputs[i] == Message(texts[i])
  {
    if |texts| == 0 then [] else [Message(texts[0])] + Messages(texts[1..])
  }

  /** Every text fails the date check once stripped. */
  predicate AllRejected(bad: seq<string>) {
    forall i :: 0 <= i < |bad| ==> Dates.ParseDate(Strip(bad[i])).None?
  }

  /** The answers at the date question: the rejected dates, then the good one. */
  function DateAnswers(bad: seq<string>, d: string): (inputs: seq<Input>)
    ensures |inputs| == |bad| + 1 && inputs[|bad|] == Message(d)
    ensures forall i :: 0 <= i < |bad| ==> inputs[i] == Message(bad[i])
  {
    Messages(bad) + [Message(d)]
  }

  /** Putting one message in front of a sequence and taking it off again. */
  lemma Cons(x: Input, rest: seq<Input>)
    ensures ([x] + rest)[0] == x && ([x] + rest)[1..] == rest
  {
  }

  /** Taking the first of two leading messages off. */
  lemma ConsTwo(x: Input, y: Input, rest: seq<Input>)
    ensures ([x, y] + rest)[0] == x && ([x, y] + rest)[1..] == [y] + rest
  {
  }

  /** Taking the first of three leading messages off. */
  lemma ConsThree(x: Input, y: Input, z: Input, rest: seq<Input>)
    ensures ([x, y, z] + rest)[0] == x && ([x, y, z] + rest)[1..] == [y, z] + rest
  {
  }

  /** The states visited from the date question when `n` rejected dates come
      before a good one: the date question `n + 1` times, then the end. */
  function DateVisits(n: nat): (v: seq<State>)
    ensures |v| == n + 2 && v[n + 1] == Ended
    ensures forall i :: 0 <= i <= n ==> v[i] == Date
  {
    if n == 0 then [Date, Ended] else [Date] + DateVisits(n - 1)
  }

  /** A good date at the date question ends the conversation with one search,
      made with the stored stations and the stripped date. */
  lemma GoodDateEnds(from: string, to: string, date0: Option<string>, d: string, search: Query -> seq<TrainRecord>)
    requires Dates.ParseDate(Strip(d)).Some?
    ensures var tr := Run(Date, Session(Some(from), Some(to), date0), [Message(d)], search);
      && tr.states == [Date, Ended]
      && tr.searches == [Query(from, to, Strip(d))]
      && tr.session == Session(Some(from), Some(to), Some(Strip(d)))
  {
    var s := Session(Some(from), Some(to), date0);
    var t := Step(Date, s, Message(d), search);
    assert t.search == Some(Query(from, to, Strip(d)));
    assert t.session == Session(Some(from), Some(to), Some(Strip(d)));
    assert t.state == Ended;
    RunUnfold(Date, s, [Message(d)], search);
    assert [Message(d)][1..] == [];
  }

  /** The last leg of a conversation: any number of rejected dates, each
      answered at the date question, then a good date that ends it with one
      search. */
  lemma {:induction false} DateLeg(from: string, to: string, date0: Option<string>, bad: seq<string>, d: string, search: Query -> seq<TrainRecord>)
    requires AllRejected(bad) && Dates.ParseDate(Strip(d)).Some?
    ensures var tr := Run(Date, Session(Some(from), Some(to), date0), DateAnswers(bad, d), search);
      && tr.states == DateVisits(|bad|)
      && tr.searches == [Query(from, to, Strip(d))]
      && tr.session == Session(Some(from), Some(to), Some(Strip(d)))
    decreases |bad|
  {
    var s := Session(Some(from), Some(to), date0);
    var inputs := DateAnswers(bad, d);
    if |bad| == 0 {
      assert inputs == [Message(d)];
      GoodDateEnds(from, to, date0, d, search);
    } else {
      RunUnfold(Date, s, inputs, search);
      assert inputs[0] == Message(bad[0]);
      BadDateRetries(s, bad[0], search);
      assert inputs[1..] == DateAnswers(bad[1..], d);
      assert AllRejected(bad[1..]) by {
        forall i | 0 <= i < |bad| - 1
          ensures Dates.ParseDate(Strip(bad[1..][i])).None?
        {
          assert bad[1..][i] == bad[i + 1];
        }
      }
      DateLeg(from, to, date0, bad[1..], d, search);
    }
  }

  /** The destination answer, rejected dates, then a good date. */
  lemma DestinationLeg(from: string, to0: Option<string>, date0: Option<string>, b: string, bad: seq<string>, d: string, search: Query -> seq<TrainRecord>)
    requires AllRejected(bad) && Dates.ParseDate(Strip(d)).Some?
    ensures var tr := Run(ToStation, Session(Some(from), to0, date0), [Message(b)] + DateAnswers(bad, d), search);
      && tr.states == [ToStation] + DateVisits(|bad|)
      && tr.searches == [Query(from, Strip(b), Strip(d))]
      && tr.session == Session(Some(from), Some(Strip(b)), Some(Strip(d)))
  {
    var s := Session(Some(from), to0, date0);
    var inputs := [Message(b)] + DateAnswers(bad, d);
    Cons(Message(b), DateAnswers(bad, d));
    StationsStoredStripped(s, b, search);
    DateLeg(from, Strip(b), date0, bad, d, search);
    RunUnfold(ToStation, s, inputs, search);
  }

  /** The origin answer, the destination answer, rejected dates and a good date. */
  lemma OriginLeg(s: Session, a: string, b: string, bad: seq<string>, d: string, search: Query -> seq<TrainRecord>)
    requires AllRejected(bad) && Dates.ParseDate(Strip(d)).Some?
    ensures var tr := Run(FromStation, s, [Message(a), Message(b)] + DateAnswers(bad, d), search);
      && tr.states == [FromStation, ToStation] + DateVisits(|bad|)
      && tr.searches == [Query(Strip(a), Strip(b), Strip(d))]
      && tr.session == Session(Some(Strip(a)), Some(Strip(b)), Some(Strip(d)))
  {
    var s2 := s.(from := Some(Strip(a)));
    var inputs := [Message(a), Message(b)] + DateAnswers(bad, d);
    ConsTwo(Message(a), Message(b), DateAnswers(bad, d));
    StationsStoredStripped(s, a, search);
    DestinationLeg(Strip(a), s.to, s.date, b, bad, d, search);
    RunUnfold(FromStation, s, inputs, search);
  }

  /** A whole conversation: start, origin, destination, any number of rejected
      dates and a good date. It visits the states in order, with self-loops only
      at the date question, and makes exactly one search, with the three stripped
      answers, whatever was stored before. */
  lemma StraightThroughRetrying(s: Session, name: string, a: string, b: string, bad: seq<string>, d: string, search: Query -> seq<TrainRecord>)
    requires AllRejected(bad) && Dates.ParseDate(Strip(d)).Some?
    ensures var tr := Run(Ended, s, [StartCommand(name), Message(a), Message(b)] + DateAnswers(bad, d), search);
      && tr.states == [Ended, FromStation, ToStation] + DateVisits(|bad|)
      && tr.searches == [Query(Strip(a), Strip(b), Strip(d))]
      && tr.session == Session(Some(Strip(a)), Some(Strip(b)), Some(Strip(d)))
  {
    var inputs := [StartCommand(name), Message(a), Message(b)] + DateAnswers(bad, d);
    ConsThree(StartCommand(name), Message(a), Message(b), DateAnswers(bad, d));
    assert Step(Ended, s, StartCommand(name), search) == Turn(FromStation, s, [Greeting(name)], None);
    OriginLeg(s, a, b, bad, d, search);
    RunUnfold(Ended, s, inputs, search);
  }

  /** The straight-through conversation: start, origin, destination, a good date.
      It visits the states in order and makes exactly one search, with the three
      stripped replies, whatever was stored before. */
  lemma StraightThrough(s: Session, name: string, a: string, b: string, d: string, search: Query -> seq<TrainRecord>)
    requires Dates.ParseDate(Strip(d)).Some?
    ensures var tr := Run(Ended, s, [StartCommand(name), Message(a), Message(b), Message(d)], search);
      && tr.states == [Ended, FromStation, ToStation, Date, Ended]
      && tr.searches == [Query(Strip(a), Strip(b), Strip(d))]
      && tr.session == Session(Some(Strip(a)), Some(Strip(b)), Some(Strip(d)))
  {
    StraightThroughRetrying(s, name, a, b, [], d, search);
    assert [StartCommand(name), Message(a), Message(b)] + DateAnswers([], d)
      == [StartCommand(name), Message(a), Message(b), Message(d)];
  }

  /** Cancelling at the destination question ends the conversation with no
      search, and the next start begins a new one at the origin question. */
  lemma CancelThenRestart(s: Session, name: string, a: string, search: Query -> seq<TrainRecord>)
    ensures var tr := Run(Ended, s, [StartCommand(name), Message(a), CancelCommand, StartCommand(name)], search);
      && tr.states == [Ended, FromStation, ToStation, Ended, FromStation]
      && tr.searches == []
  {
    var inputs := [StartCommand(name), Message(a), CancelCommand, StartCommand(name)];
    var s2 := s.(from := Some(Strip(a)));
    assert Step(Ended, s, inputs[0], search) == Turn(FromStation, s, [Greeting(name)], None);
    assert Step(FromStation, s, Message(a), search).state == ToStation;
    assert Step(FromStation, s, Message(a), search).session == s2;
    assert Step(ToStation, s2, CancelCommand, search) == Turn(Ended, s2, [Cancelled], None);
    assert Step(Ended, s2, StartCommand(name), search) == Turn(FromStation, s2, [Greeting(name)], None);
    RunUnfold(Ended, s2, [StartCommand(name)], search);
    assert [StartCommand(name)][1..] == [];
    var r3 := Run(Ended, s2, [StartCommand(name)], search);
    assert r3.states == [Ended, FromStation] && r3.searches == [];
    RunUnfold(ToStation, s2, [CancelCommand, StartCommand(name)], search);
    assert [CancelCommand, StartCommand(name)][1..] == [StartCommand(name)];
    var r2 := Run(ToStation, s2, [CancelCommand, StartCommand(name)], search);
    assert r2.states == [ToStation, Ended, FromStation] && r2.searches == [];
    RunUnfold(FromStation, s, [Message(a), CancelCommand, StartCommand(name)], search);
    assert [Message(a), CancelCommand, StartCommand(name)][1..] == [CancelCommand, StartCommand(name)];
    RunUnfold(Ended, s, inputs, search);
    assert inputs[1..] == [Message(a), CancelCommand, StartCommand(name)];
  }
}
