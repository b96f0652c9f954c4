/**
 * The `/calc` conversation: five questions asked one at a time.
 *
 * Each handler parses the message, checks the value and, only if the check
 * passes, stores it and moves on to the next question; otherwise it asks
 * again and stays where it is.  The chat transport is not modelled: a
 * message is its text, and Python's `float` and `int` are parameters (a
 * parse either gives a value or fails).
 */
module Conversation {
  import opened Wrappers
  import opened TextInput
  import opened Annuity

  /** The conversation states; `End` is `ConversationHandler.END`. */
  datatype State = Amount | Term | Rate | ManualPay | Name | End

  /** `context.user_data`: what has been collected so far. */
  datatype UserData = UserData(
    amount: Option<real>,
    term: Option<int>,
    rate: Option<real>,
    manualPayment: Option<real>,
    name: Option<string>)

  datatype Session = Session(state: State, data: UserData)

  /** What the bot receives: a text message that is not a command, `/calc`,
      `/cancel`, or any other command. */
  datatype Event = Message(text: string) | CalcCommand | CancelCommand | OtherCommand

  /** The question that follows each one. */
  function Next(s: State): State
  {
    match s
    case Amount => Term
    case Term => Rate
    case Rate => ManualPay
    case ManualPay => Name
    case Name => End
    case End => End
  }

  /** `parse_amount` / `parse_rate`: `float` applied to the normalised text. */
  function ParseNumber(text: string, parseFloat: string -> Option<real>): Option<real>
  {
    parseFloat(Normalize(text))
  }

  /** `parse_term`: `int` applied to the stripped text. */
  function ParseTerm(text: string, parseInt: string -> Option<int>): Option<int>
  {
    parseInt(Strip(text))
  }

  /** One text message, handled by the handler of the current state
      (`amount_received` … `name_received`). */
  function Step(s: Session, text: string, parseFloat: string -> Option<real>, parseInt: string -> Option<int>): (t: Session)
    ensures t == s || (t.state == Next(s.state) && s.state != End)
    ensures s.state == Amount ==>
      (t.state == Term <==> ParseNumber(text, parseFloat).Some? && ParseNumber(text, parseFloat).value > 0.0)
    ensures s.state == Term ==>
      (t.state == Rate <==> ParseTerm(text, parseInt).Some? && ParseTerm(text, parseInt).value > 0)
    ensures s.state == Rate ==>
      (t.state == ManualPay <==> ParseNumber(text, parseFloat).Some? && ParseNumber(text, parseFloat).value >= 0.0)
    ensures s.state == ManualPay ==>
      (t.state == Name <==> ParseNumber(text, parseFloat).Some? && ParseNumber(text, parseFloat).value > 0.0)
    ensures s.state == Name ==> (t.state == End <==> Strip(text) != [])
  {
    match s.state
    case Amount =>
      var amount := ParseNumber(text, parseFloat);
      if amount.Some? && amount.value > 0.0 then Session(Term, s.data.(amount := amount)) else s
    case Term =>
      var term := ParseTerm(text, parseInt);
      if term.Some? && term.value > 0 then Session(Rate, s.data.(term := term)) else s
    case Rate =>
      var rate := ParseNumber(text, parseFloat);
      if rate.Some? && rate.value >= 0.0 then Session(ManualPay, s.data.(rate := rate)) else s
    case ManualPay =>
      var pay := ParseNumber(text, parseFloat);
      if pay.Some? && pay.value > 0.0 then Session(Name, s.data.(manualPayment := pay)) else s
    case Name =>
      var name := Strip(text);
      if name == [] then s else Session(End, s.data.(name := Some(name)))
    case End =>
      s
  }

  /** One event.  `/calc` (`calc_start`) is the entry point only: it starts a
      conversation that has ended and is ignored while one is under way, and it
      keeps whatever `user_data` already holds.  `/cancel` is the fallback of a
      running conversation and ends it.  Other commands reach no handler,
      because the state handlers take only text that is not a command. */
  function Handle(s: Session, e: Event, parseFloat: string -> Option<real>, parseInt: string -> Option<int>): (t: Session)
    ensures e.Message? ==> t == Step(s, e.text, parseFloat, parseInt)
    ensures e.CalcCommand? ==> t == if s.state == End then Session(Amount, s.data) else s
    ensures e.CancelCommand? ==> t == Session(End, s.data)
    ensures e.OtherCommand? ==> t == s
    ensures t.data == s.data || e.Message?
  {
    match e
    case Message(text) => Step(s, text, parseFloat, parseInt)
    case CalcCommand => if s.state == End then s.(state := Amount) else s
    case CancelCommand => s.(state := End)
    case OtherCommand => s
  }

  /** A sequence of events, handled in order. */
  function Run(s: Session, events: seq<Event>, parseFloat: string -> Option<real>, parseInt: string -> Option<int>): Session
    decreases |events|
  {
    if events == [] then s
    else Run(Handle(s, events[0], parseFloat, parseInt), events[1..], parseFloat, parseInt)
  }

  /** The position of a question in the order they are asked. */
  function Stage(s: State): nat
  {
    match s
    case Amount => 0
    case Term => 1
    case Rate => 2
    case ManualPay => 3
    case Name => 4
    case End => 5
  }

  predicate AmountOk(d: UserData) { d.amount.Some? && d.amount.value > 0.0 }
  predicate TermOk(d: UserData) { d.term.Some? && d.term.value > 0 }
  predicate RateOk(d: UserData) { d.rate.Some? && d.rate.value >= 0.0 }
  predicate ManualPayOk(d: UserData) { d.manualPayment.Some? && d.manualPayment.value > 0.0 }
  predicate NameOk(d: UserData) { d.name.Some? && Strip(d.name.value) == d.name.value && d.name.value != [] }

  /** While a question is pending, every earlier answer is stored and passed
      its check. */
  predicate Collected(s: Session)
  {
    s.state != End ==>
      && (Stage(s.state) >= 1 ==> AmountOk(s.data))
      && (Stage(s.state) >= 2 ==> TermOk(s.data))
      && (Stage(s.state) >= 3 ==> RateOk(s.data))
      && (Stage(s.state) >= 4 ==> ManualPayOk(s.data))
  }

  /** `Strip` leaves stripped text alone. */
  lemma StripStripped(s: string)
    ensures Strip(Strip(s)) == Strip(s)
  {
    StripShape(s);
    var t := Strip(s);
    if t != [] {
      assert TrimStart(t) == t;
      assert TrimEnd(t) == t;
    }
  }

  /** Spaces do not matter to an amount or a rate, and a comma reads as a
      decimal point: "100 000,50" is read as "100000.50". */
  lemma NumberSpellings(a: string, b: string, parseFloat: string -> Option<real>)
    ensures ParseNumber(a + " " + b, parseFloat) == ParseNumber(a + b, parseFloat)
    ensures ParseNumber(a + "," + b, parseFloat) == ParseNumber(a + "." + b, parseFloat)
  {
    NormalizeAround(a, ' ', b);
    NormalizeConcat(a, b);
    assert Normalize(a + " " + b) == Normalize(a + b);
    NormalizeAround(a, ',', b);
    NormalizeAround(a, '.', b);
    assert Normalize(a + "," + b) == Normalize(a + "." + b);
  }

  /** Surrounding white space does not matter to the term: the term read from
      a text is the one read from the text stripped. */
  lemma TermIgnoresPadding(text: string, parseInt: string -> Option<int>)
    ensures ParseTerm(text, parseInt) == ParseTerm(Strip(text), parseInt)
  {
    StripStripped(text);
  }

  /** Every event keeps the collected answers valid. */
  lemma HandleKeepsCollected(s: Session, e: Event, parseFloat: string -> Option<real>, parseInt: string -> Option<int>)
    requires Collected(s)
    ensures Collected(Handle(s, e, parseFloat, parseInt))
  {
  }

  /** ... and so does any sequence of events. */
  lemma {:induction false} RunKeepsCollected(s: Session, events: seq<Event>, parseFloat: string -> Option<real>, parseInt: string -> Option<int>)
    requires Collected(s)
    ensures Collected(Run(s, events, parseFloat, parseInt))
    decreases |events|
  {
    if events != [] {
      HandleKeepsCollected(s, events[0], parseFloat, parseInt);
      RunKeepsCollected(Handle(s, events[0], parseFloat, parseInt), events[1..], parseFloat, parseInt);
    }
  }

  /** When the name step finishes the conversation, all five answers are
      stored and valid, so the schedule it then builds has a positive term and
      a rate that is not negative, and in exact arithmetic the payment can
      always be computed. */
  lemma FinishedConversation(s: Session, text: string, parseFloat: string -> Option<real>, parseInt: string -> Option<int>,
                             principal: int)
    requires Collected(s) && s.state == Name
    requires Step(s, text, parseFloat, parseInt).state == End
    ensures var d := Step(s, text, parseFloat, parseInt).data;
            && AmountOk(d) && TermOk(d) && RateOk(d) && ManualPayOk(d) && NameOk(d)
            && AnnuityPayment(principal, d.rate.value, d.term.value).Success?
  {
    var d := Step(s, text, parseFloat, parseInt).data;
    StripStripped(text);
    NonNegativeRateComputable(principal, d.rate.value, d.term.value);
  }

  /** From the first question, five messages that each pass their check end
      the conversation with exactly those five answers stored. */
  lemma FiveValidAnswersFinish(s: Session, texts: seq<string>, parseFloat: string -> Option<real>, parseInt: string -> Option<int>)
    requires s.state == Amount && |texts| == 5
    requires ParseNumber(texts[0], parseFloat).Some? && ParseNumber(texts[0], parseFloat).value > 0.0
    requires ParseTerm(texts[1], parseInt).Some? && ParseTerm(texts[1], parseInt).value > 0
    requires ParseNumber(texts[2], parseFloat).Some? && ParseNumber(texts[2], parseFloat).value >= 0.0
    requires ParseNumber(texts[3], parseFloat).Some? && ParseNumber(texts[3], parseFloat).value > 0.0
    requires Strip(texts[4]) != []
    ensures var t := Run(s, [Message(texts[0]), Message(texts[1]), Message(texts[2]), Message(texts[3]), Message(texts[4])],
                         parseFloat, parseInt);
            && t.state == End
            && t.data == UserData(ParseNumber(texts[0], parseFloat), ParseTerm(texts[1], parseInt),
                                  ParseNumber(texts[2], parseFloat), ParseNumber(texts[3], parseFloat), Some(Strip(texts[4])))
  {
    var es := [Message(texts[0]), Message(texts[1]), Message(texts[2]), Message(texts[3]), Message(texts[4])];
    var s1 := Step(s, texts[0], parseFloat, parseInt);
    var s2 := Step(s1, texts[1], parseFloat, parseInt);
    var s3 := Step(s2, texts[2], parseFloat, parseInt);
    var s4 := Step(s3, texts[3], parseFloat, parseInt);
    var s5 := Step(s4, texts[4], parseFloat, parseInt);
    assert es[1..][1..][1..][1..][1..] == [];
    assert Run(s, es, parseFloat, parseInt) == Run(s1, es[1..], parseFloat, parseInt);
    assert Run(s1, es[1..], parseFloat, parseInt) == Run(s2, es[1..][1..], parseFloat, parseInt);
    assert Run(s2, es[1..][1..], parseFloat, parseInt) == Run(s3, es[1..][1..][1..], parseFloat, parseInt);
    assert Run(s3, es[1..][1..][1..], parseFloat, parseInt) == Run(s4, es[1..][1..][1..][1..], parseFloat, parseInt);
    assert Run(s4, es[1..][1..][1..][1..], parseFloat, parseInt) == s5;
  }
}
