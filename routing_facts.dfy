/** What the keyword cascade of `handle_message` guarantees: first match in declared order, the
    Tagalog short-circuit, the dead "good morning" branch, and which branch writes the name. */
module RoutingFacts {
  import opened Optional
  import opened PyStr
  import opened Routing

  /** The first-match index is determined by "this rule matches and no earlier one does". */
  lemma {:induction false} FirstRuleIs(rules: seq<Rule>, text: string, k: nat)
    requires k < |rules| && Contains(text, rules[k].keyword)
    requires forall j :: 0 <= j < k ==> !Contains(text, rules[j].keyword)
    ensures FirstRule(rules, text) == k
    decreases k
  {
    if k > 0 {
      assert !Contains(text, rules[0].keyword);
      FirstRuleIs(rules[1..], text, k - 1);
    }
  }

  /** On the primary rules, the first-match index is the position of the first keyword test of
      the cascade that succeeds. */
  lemma FirstPrimaryRule(text: string)
    ensures FirstRule(PrimaryRules, text) ==
      if Contains(text, "good morning") then 0
      else if Contains(text, "hello") then 1
      else if Contains(text, "bye") then 2
      else if Contains(text, NameTrigger) then 3
      else if Contains(text, "preferences") then 4
      else 5
  {
    var rules := PrimaryRules;
    assert rules[0].keyword == "good morning" && rules[1].keyword == "hello" && rules[2].keyword == "bye";
    assert rules[3].keyword == NameTrigger && rules[4].keyword == "preferences";
    if Contains(text, "good morning") {
      FirstRuleIs(rules, text, 0);
    } else if Contains(text, "hello") {
      FirstRuleIs(rules, text, 1);
    } else if Contains(text, "bye") {
      FirstRuleIs(rules, text, 2);
    } else if Contains(text, NameTrigger) {
      FirstRuleIs(rules, text, 3);
    } else if Contains(text, "preferences") {
      FirstRuleIs(rules, text, 4);
    }
  }

  /** The cascade is exactly "classify by the rule list, then run that rule's handler". */
  lemma HandleMessageFollowsRules(s: Session, m: string, c: CompletionResult)
    ensures HandleMessage(s, m, c) == Respond(Classify(m), s, m, c)
  {
    FirstPrimaryRule(Lower(m));
  }

  /** A message falls through to the completion service exactly when no Tagalog keyword and no
      primary keyword occurs in it, ignoring case. */
  lemma CompletionIffNoKeyword(m: string)
    ensures Classify(m) == Completion <==>
      !IsTagalog(m) && forall j :: 0 <= j < |PrimaryRules| ==> !Contains(Lower(m), PrimaryRules[j].keyword)
  {
  }

  /** The Tagalog gate: if any keyword occurs in the lower-cased message, the reply is the fixed
      apology and the name is left as it was, whatever else the message holds. */
  lemma TagalogShortCircuit(s: Session, m: string, c: CompletionResult, k: nat)
    requires k < |TagalogKeywords| && Contains(Lower(m), TagalogKeywords[k])
    ensures Classify(m) == Tagalog
    ensures HandleMessage(s, m, c) == Handled(TagalogApology, s.name)
  {
  }

  /** "good morning" holds "oo", one of the Tagalog keywords. */
  lemma GoodMorningIsTagalog(m: string)
    requires Contains(Lower(m), "good morning")
    ensures IsTagalog(m)
  {
    assert OccursAt("good morning", "oo", 1);
    ContainsTransitive(Lower(m), "good morning", "oo");
    assert TagalogKeywords[5] == "oo";
  }

  /** So the "good morning" rule never fires: its branch of the cascade is dead code. */
  lemma GoodMorningUnreachable(s: Session, m: string, c: CompletionResult)
    ensures Classify(m) != GoodMorning
    ensures Contains(Lower(m), "good morning") ==> HandleMessage(s, m, c) == Handled(TagalogApology, s.name)
  {
    if Contains(Lower(m), "good morning") {
      GoodMorningIsTagalog(m);
    } else if !IsTagalog(m) {
      assert PrimaryRules[0].keyword == "good morning";
    }
  }

  /** Only the name-capture rule writes the name; every other rule keeps it. */
  lemma OnlyNameCaptureWritesName(s: Session, m: string, c: CompletionResult)
    ensures Classify(m) != NameCapture ==> HandleMessage(s, m, c).name == s.name
    ensures Classify(m) == NameCapture ==> HandleMessage(s, m, c).name == Some(CaptureName(m))
  {
    HandleMessageFollowsRules(s, m, c);
  }

  /** `hello` greets a stored, non-empty name and otherwise asks for one; neither `hello` nor
      `bye` touches the name. */
  lemma HelloAndByeKeepName(s: Session, m: string, c: CompletionResult)
    ensures Classify(m) == Hello ==>
      HandleMessage(s, m, c) == Handled(
        if Truthy(s.name) then "Hello " + s.name.value + "!" else "Hi there! What's your name?",
        s.name)
    ensures Classify(m) == Bye ==> HandleMessage(s, m, c) == Handled("Goodbye! Have a great day.", s.name)
  {
    HandleMessageFollowsRules(s, m, c);
  }

  /** Name capture replies with a confirmation echoing the captured name and stores it. */
  lemma NameCaptureSetsName(s: Session, m: string, c: CompletionResult)
    requires Classify(m) == NameCapture
    ensures HandleMessage(s, m, c) ==
      Handled("Got it, " + CaptureName(m) + "! I will remember your name.", Some(CaptureName(m)))
  {
    HandleMessageFollowsRules(s, m, c);
  }

  /** The captured name is the stripped text after the last case-sensitive "my name is", which
      holds no further "my name is"; when the trigger matched only case-insensitively the whole
      stripped message is the name. */
  lemma CaptureNameSpec(m: string)
    ensures !Contains(m, "my name is") ==> CaptureName(m) == Strip(m)
    ensures Contains(m, "my name is") ==> exists i ::
      10 <= i <= |m| && OccursAt(m, "my name is", i - 10) && !Contains(m[i..], "my name is") &&
      CaptureName(m) == Strip(m[i..])
  {
    LastPieceSpec(m, NameTrigger);
    if Contains(m, NameTrigger) {
      var r := LastPiece(m, NameTrigger);
      var i := |m| - |r|;
      assert m[i..] == r;
      assert OccursAt(m, NameTrigger, i - 10);
    }
  }

  /** The preferences reply lists them joined by ", "; with none it is exactly the prefix. */
  lemma PreferencesReply(s: Session, m: string, c: CompletionResult)
    requires Classify(m) == Preferences
    ensures HandleMessage(s, m, c) == Handled("Your preferences: " + Join(s.preferences, ", "), s.name)
    ensures s.preferences == [] ==> HandleMessage(s, m, c).reply == "Your preferences: "
  {
    HandleMessageFollowsRules(s, m, c);
  }

  /** A message matching no rule is answered by the completion service: its stripped first
      generation, or the fixed error text on any failure. */
  lemma FallbackReply(s: Session, m: string, c: CompletionResult)
    requires Classify(m) == Completion
    ensures HandleMessage(s, m, c) == Handled(CallCohere(c), s.name)
    ensures c.Raised? ==> HandleMessage(s, m, c).reply == "Error: Cannot process your request at the moment."
  {
    HandleMessageFollowsRules(s, m, c);
  }

  /** Rules fire in declared order, not by how specific they are: a message holding both
      "hello" and "my name is" (say "hello, my name is Sam") from a session without a name
      (`None`, or the falsy `""`) asks for the name and leaves it as it was. */
  lemma HelloBeatsNameCapture(s: Session, m: string, c: CompletionResult)
    requires !IsTagalog(m) && Contains(Lower(m), "hello") && Contains(Lower(m), "my name is")
    requires !Truthy(s.name)
    ensures Classify(m) == Hello
    ensures HandleMessage(s, m, c) == Handled("Hi there! What's your name?", s.name)
  {
    GoodMorningUnreachable(s, m, c);
    HandleMessageFollowsRules(s, m, c);
    assert PrimaryRules[1].keyword == "hello";
    FirstRuleIs(PrimaryRules, Lower(m), 1);
  }
}
