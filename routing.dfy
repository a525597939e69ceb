/** The per-session state one chat turn reads, the keyword cascade of `handle_message`
    (backend/app.py:115-139), the Tagalog gate (`is_tagalog`, `handle_tagalog_response`) and the
    completion fallback (`call_cohere_api`). Everything here is a pure function of the session,
    the message and the outcome of the completion call. */
module Routing {
  import opened Optional
  import opened PyStr

  /** One entry of `user_memory`. */
  datatype Session = Session(
    name: Option<string>,
    preferences: seq<string>,
    history: seq<string>,
    lastQuestion: Option<string>)

  /** The record `chat` creates for an email it has not seen. */
  const FreshSession := Session(None, [], [], None)

  /** Python truthiness of an optional string: `None` and `""` are both false. */
  predicate Truthy(o: Option<string>) {
    o.Some? && o.value != ""
  }

  // ---------------------------------------------------------------- completion fallback

  /** What the completion service call produced: the texts of its generations, or an exception. */
  datatype CompletionResult = Generated(texts: seq<string>) | Raised

  const CompletionError := "Error: Cannot process your request at the moment."

  /** `call_cohere_api`: the first generation stripped of surrounding whitespace; an exception,
      including the `IndexError` of an empty generation list, gives the fixed error text. */
  function CallCohere(c: CompletionResult): (r: string)
    ensures c.Raised? || c.texts == [] ==> r == CompletionError
    ensures c.Generated? && c.texts != [] ==>
      Trimmed(r) && exists i :: StripsTo(c.texts[0], r, i)
  {
    match c
    case Raised => CompletionError
    case Generated(texts) => if texts == [] then CompletionError else Strip(texts[0])
  }

  // ---------------------------------------------------------------- the Tagalog gate

  const TagalogKeywords: seq<string> :=
    ["kamusta", "magandang araw", "salamat", "paalam", "kumusta", "oo", "hindi"]

  /** The one reply of `handle_tagalog_response`, whatever it is given. */
  const TagalogApology := "Pasensya na, hindi ko masyadong maintindihan. Puwede mo bang ulitin?"

  /** `any(k in text for k in keywords)`. */
  function AnyIn(text: string, keywords: seq<string>): (r: bool)
    ensures r <==> exists k :: 0 <= k < |keywords| && Contains(text, keywords[k])
    decreases |keywords|
  {
    if keywords == [] then false
    else Contains(text, keywords[0]) || AnyIn(text, keywords[1..])
  }

  /** `is_tagalog`: some keyword occurs in the lower-cased message. */
  predicate IsTagalog(m: string) {
    AnyIn(Lower(m), TagalogKeywords)
  }

  // ---------------------------------------------------------------- the rule handlers

  const NameTrigger := "my name is"

  function GreetMorning(name: Option<string>): string {
    if Truthy(name) then "Good morning " + name.value + "!"
    else "Good morning! How can I assist you today?"
  }

  function GreetHello(name: Option<string>): string {
    if Truthy(name) then "Hello " + name.value + "!" else "Hi there! What's your name?"
  }

  const Farewell := "Goodbye! Have a great day."

  /** `user_message.split("my name is")[-1].strip()`: the split is case sensitive. */
  function CaptureName(m: string): string {
    Strip(LastPiece(m, NameTrigger))
  }

  function ConfirmName(name: string): string {
    "Got it, " + name + "! I will remember your name."
  }

  function ListPreferences(preferences: seq<string>): string {
    "Your preferences: " + Join(preferences, ", ")
  }

  // ---------------------------------------------------------------- handle_message

  /** The reply of one turn and the session's name afterwards. */
  datatype Handled = Handled(reply: string, name: Option<string>)

  /** `handle_message`: the Tagalog gate, then five case-insensitive keyword tests in declared
      order, then the completion service. Only the name-capture branch writes the name. */
  function HandleMessage(s: Session, m: string, c: CompletionResult): Handled {
    var low := Lower(m);
    if IsTagalog(m) then Handled(TagalogApology, s.name)
    else if Contains(low, "good morning") then Handled(GreetMorning(s.name), s.name)
    else if Contains(low, "hello") then Handled(GreetHello(s.name), s.name)
    else if Contains(low, "bye") then Handled(Farewell, s.name)
    else if Contains(low, NameTrigger) then
      var name := CaptureName(m);
      Handled(ConfirmName(name), Some(name))
    else if Contains(low, "preferences") then Handled(ListPreferences(s.preferences), s.name)
    else Handled(CallCohere(c), s.name)
  }

  // ---------------------------------------------------------------- the cascade as a rule list

  /** Which handler answers a message. */
  datatype Intent = Tagalog | GoodMorning | Hello | Bye | NameCapture | Preferences | Completion

  datatype Rule = Rule(keyword: string, intent: Intent)

  /** The keyword rules that follow the Tagalog gate, in declared order. */
  const PrimaryRules: seq<Rule> := [
    Rule("good morning", GoodMorning),
    Rule("hello", Hello),
    Rule("bye", Bye),
    Rule(NameTrigger, NameCapture),
    Rule("preferences", Preferences)
  ]

  /** The index of the first rule whose keyword occurs in `text`, or `|rules|` when none does. */
  function FirstRule(rules: seq<Rule>, text: string): (k: nat)
    ensures k <= |rules|
    ensures k < |rules| ==> Contains(text, rules[k].keyword)
    ensures forall j :: 0 <= j < k ==> !Contains(text, rules[j].keyword)
    decreases |rules|
  {
    if rules == [] then 0
    else if Contains(text, rules[0].keyword) then 0
    else 1 + FirstRule(rules[1..], text)
  }

  /** First match wins: the gate, then the first primary rule that matches the lower-cased
      message, else the completion service. */
  function Classify(m: string): Intent {
    if IsTagalog(m) then Tagalog
    else
      var k := FirstRule(PrimaryRules, Lower(m));
      if k < |PrimaryRules| then PrimaryRules[k].intent else Completion
  }

  /** The handler each intent stands for. */
  function Respond(intent: Intent, s: Session, m: string, c: CompletionResult): Handled {
    match intent
    case Tagalog => Handled(TagalogApology, s.name)
    case GoodMorning => Handled(GreetMorning(s.name), s.name)
    case Hello => Handled(GreetHello(s.name), s.name)
    case Bye => Handled(Farewell, s.name)
    case NameCapture => var name := CaptureName(m); Handled(ConfirmName(name), Some(name))
    case Preferences => Handled(ListPreferences(s.preferences), s.name)
    case Completion => Handled(CallCohere(c), s.name)
  }
}
