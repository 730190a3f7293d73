/** The booking questions and the detector that maps an assistant's text back to
    the slot it asks for. Letters are ASCII. */
module QuestionText {
  import opened Booking

  function Lower(c: char): char {
    if 'A' <= c <= 'Z' then (c as int + 32) as char else c
  }

  function ToLower(s: string): (l: string)
    ensures |l| == |s|
  {
    seq(|s|, i requires 0 <= i < |s| => Lower(s[i]))
  }

  predicate OccursAt(s: string, sub: string, i: nat) {
    i + |sub| <= |s| && s[i..i + |sub|] == sub
  }

  predicate Contains(s: string, sub: string) {
    exists i: nat :: i <= |s| && OccursAt(s, sub, i)
  }

  /** `expectedBookingFieldFromAssistant`. */
  function ExpectedField(text: string): string {
    var lower := ToLower(text);
    if Contains(lower, "what date") || Contains(lower, "which date") || Contains(lower, "what day") then "date"
    else if Contains(lower, "what time") || Contains(lower, "which time") then "time"
    else if Contains(lower, "how many people") || Contains(lower, "how many guests") then "guest_count"
    else if Contains(lower, "take your name") || Contains(lower, "what name") then "name"
    else if Contains(lower, "contact number") || Contains(lower, "phone number")
      || Contains(lower, "best contact number") then "phone"
    else ""
  }

  // ---------- Which slot a text asks for ----------

  /** The phrases that ask for a slot, in lower case. */
  function Phrases(slot: Slot): set<string> {
    match slot
    case Date => {"what date", "which date", "what day"}
    case Time => {"what time", "which time"}
    case Guests => {"how many people", "how many guests"}
    case Name => {"take your name", "what name"}
    case Phone => {"contact number", "phone number", "best contact number"}
  }

  ghost predicate Mentions(text: string, slot: Slot) {
    exists p :: p in Phrases(slot) && Contains(ToLower(text), p)
  }

  /** The detector names the first slot in asking order that the text mentions. */
  lemma ExpectedFieldExactly(text: string, slot: Slot)
    ensures ExpectedField(text) == FieldName(slot) <==>
      Mentions(text, slot) && forall s: Slot :: Order(s) < Order(slot) ==> !Mentions(text, s)
    ensures ExpectedField(text) == "" <==> forall s: Slot :: !Mentions(text, s)
  {
    hide Contains, ToLower;
    MentionsByPhrase(text);
    assert Order(Date) < Order(Time) < Order(Guests) < Order(Name) < Order(Phone);
  }

  lemma MentionsByPhrase(text: string)
    ensures var l := ToLower(text);
      && (Mentions(text, Date) <==> Contains(l, "what date") || Contains(l, "which date") || Contains(l, "what day"))
      && (Mentions(text, Time) <==> Contains(l, "what time") || Contains(l, "which time"))
      && (Mentions(text, Guests) <==> Contains(l, "how many people") || Contains(l, "how many guests"))
      && (Mentions(text, Name) <==> Contains(l, "take your name") || Contains(l, "what name"))
      && (Mentions(text, Phone) <==> Contains(l, "contact number") || Contains(l, "phone number")
                                     || Contains(l, "best contact number"))
  {
    hide Contains, ToLower;
    assert "what date" in Phrases(Date) && "which date" in Phrases(Date) && "what day" in Phrases(Date);
    assert "what time" in Phrases(Time) && "which time" in Phrases(Time);
    assert "how many people" in Phrases(Guests) && "how many guests" in Phrases(Guests);
    assert "take your name" in Phrases(Name) && "what name" in Phrases(Name);
    assert "contact number" in Phrases(Phone) && "phone number" in Phrases(Phone)
        && "best contact number" in Phrases(Phone);
  }

  /** The detector answers no earlier than `n` exactly when no slot before `n` is
      mentioned. */
  lemma FieldOrderOf(text: string, n: nat)
    requires n <= 5
    ensures FieldOrder(ExpectedField(text)) >= n <==> forall s: Slot :: Order(s) < n ==> !Mentions(text, s)
  {
    PlaceOfField(text);
    hide ExpectedField, Mentions;
    assert Order(Date) == 0 && Order(Time) == 1 && Order(Guests) == 2 && Order(Name) == 3 && Order(Phone) == 4;
  }

  lemma PlaceOfField(text: string)
    ensures FieldOrder(ExpectedField(text)) ==
      if Mentions(text, Date) then 0
      else if Mentions(text, Time) then 1
      else if Mentions(text, Guests) then 2
      else if Mentions(text, Name) then 3
      else if Mentions(text, Phone) then 4
      else 5
  {
    MentionsByPhrase(text);
    hide Contains, ToLower, Mentions;
  }

  // ---------- Letter case ----------

  /** The same character, or the two cases of a letter. */
  predicate SameLetter(a: char, b: char) {
    || a == b
    || ('A' <= a <= 'Z' && b as int == a as int + 32)
    || ('A' <= b <= 'Z' && a as int == b as int + 32)
  }

  /** The phrase stands in the text at `i`, in whatever case. */
  predicate StandsAt(text: string, phrase: string, i: nat) {
    i + |phrase| <= |text| && forall k :: 0 <= k < |phrase| ==> SameLetter(text[i + k], phrase[k])
  }

  /** Whether a text mentions a slot depends on its letters and not on their case. */
  lemma MentionsInAnyCase(text: string, slot: Slot)
    ensures Mentions(text, slot) <==> exists p, i: nat :: p in Phrases(slot) && StandsAt(text, p, i)
  {
    hide Phrases;
    if Mentions(text, slot) {
      var p :| p in Phrases(slot) && Contains(ToLower(text), p);
      var i: nat :| i <= |text| && OccursAt(ToLower(text), p, i);
      StandsExactly(slot, text, p, i);
    }
    if p, i: nat :| p in Phrases(slot) && StandsAt(text, p, i) {
      StandsExactly(slot, text, p, i);
    }
  }

  lemma StandsExactly(slot: Slot, text: string, p: string, i: nat)
    requires p in Phrases(slot)
    ensures StandsAt(text, p, i) <==> OccursAt(ToLower(text), p, i)
  {
    PhrasesArePlain(slot, p);
    hide Phrases;
    if i + |p| <= |text| {
      var found := ToLower(text)[i..i + |p|];
      forall k | 0 <= k < |p|
        ensures SameLetter(text[i + k], p[k]) <==> found[k] == p[k]
      {
      }
    }
  }

  /** So the answer stays the same when letters change their case. */
  lemma CaseIgnored(s: string, t: string)
    requires |s| == |t| && forall i :: 0 <= i < |s| ==> SameLetter(s[i], t[i])
    ensures ExpectedField(s) == ExpectedField(t)
  {
    assert ToLower(s) == ToLower(t);
  }

  // ---------- Longer texts ----------

  lemma LowerConcat(a: string, b: string)
    ensures ToLower(a + b) == ToLower(a) + ToLower(b)
  {
  }

  lemma ContainsWithin(x: string, a: string, y: string, p: string)
    requires Contains(a, p)
    ensures Contains(x + a + y, p)
  {
    var i: nat :| i <= |a| && OccursAt(a, p, i);
    assert (x + a + y)[|x| + i..|x| + i + |p|] == a[i..i + |p|];
    assert OccursAt(x + a + y, p, |x| + i);
  }

  lemma CharOfOccurrence(s: string, p: string, i: nat, at: nat)
    requires OccursAt(s, p, i) && i <= at < i + |p|
    ensures s[at] in p
  {
    assert s[at] == s[i..i + |p|][at - i];
  }

  lemma OccursInFirst(a: string, b: string, p: string, i: nat)
    requires OccursAt(a + b, p, i) && i + |p| <= |a|
    ensures OccursAt(a, p, i)
  {
    assert a[i..i + |p|] == (a + b)[i..i + |p|];
  }

  lemma OccursInSecond(a: string, b: string, p: string, i: nat)
    requires OccursAt(a + b, p, i) && i >= |a|
    ensures OccursAt(b, p, i - |a|)
  {
    assert b[i - |a|..i - |a| + |p|] == (a + b)[i..i + |p|];
  }

  /** No phrase can be seen through a character that is in none of them. */
  lemma ContainsApart(a: string, c: char, b: string, p: string)
    requires c !in p
    ensures Contains(a + [c] + b, p) <==> Contains(a, p) || Contains(b, p)
  {
    var whole := a + [c] + b;
    assert whole[|a|] == c;
    if Contains(whole, p) {
      var i: nat :| i <= |whole| && OccursAt(whole, p, i);
      if i <= |a| < i + |p| {
        CharOfOccurrence(whole, p, i, |a|);
        assert false;
      } else if i > |a| {
        OccursInSecond(a + [c], b, p, i);
      } else {
        assert whole == a + ([c] + b);
        OccursInFirst(a, [c] + b, p, i);
      }
    }
    if Contains(a, p) {
      ContainsWithin("", a, [c] + b, p);
      assert "" + a + ([c] + b) == whole;
    }
    if Contains(b, p) {
      ContainsWithin(a + [c], b, "", p);
      assert a + [c] + b + "" == whole;
    }
  }

  /** What stands in no phrase, in either case: neither a letter nor a space. */
  predicate Separates(c: char) {
    !('a' <= c <= 'z') && !('A' <= c <= 'Z') && c != ' '
  }

  predicate PhraseChars(p: string) {
    forall k :: 0 <= k < |p| ==> 'a' <= p[k] <= 'z' || p[k] == ' '
  }

  lemma PhrasesArePlain(slot: Slot, p: string)
    requires p in Phrases(slot)
    ensures PhraseChars(p)
  {
    hide PhraseChars;
    PlainDates();
    PlainTimes();
    PlainNames();
    PlainNumbers();
  }

  lemma PlainDates()
    ensures PhraseChars("what date") && PhraseChars("which date") && PhraseChars("what day")
  {
  }

  lemma PlainTimes()
    ensures PhraseChars("what time") && PhraseChars("which time")
    ensures PhraseChars("how many people") && PhraseChars("how many guests")
  {
  }

  lemma PlainNames()
    ensures PhraseChars("take your name") && PhraseChars("what name")
  {
  }

  lemma PlainNumbers()
    ensures PhraseChars("contact number") && PhraseChars("phone number") && PhraseChars("best contact number")
  {
  }

  /** Text around a mention does not hide it. */
  lemma MentionWithin(x: string, a: string, y: string, slot: Slot)
    requires Mentions(a, slot)
    ensures Mentions(x + a + y, slot)
  {
    hide Phrases;
    var p :| p in Phrases(slot) && Contains(ToLower(a), p);
    LowerConcat(x, a);
    LowerConcat(x + a, y);
    ContainsWithin(ToLower(x), ToLower(a), ToLower(y), p);
  }

  /** Sentences are searched one by one. */
  lemma MentionsApart(a: string, c: char, b: string, slot: Slot)
    requires Separates(c)
    ensures Mentions(a + [c] + b, slot) <==> Mentions(a, slot) || Mentions(b, slot)
  {
    hide Phrases, Contains, ToLower;
    LowerConcat(a, [c]);
    LowerConcat(a + [c], b);
    SeparatorStays(c);
    forall p | p in Phrases(slot)
      ensures Contains(ToLower(a + [c] + b), p) <==> Contains(ToLower(a), p) || Contains(ToLower(b), p)
    {
      PhrasesArePlain(slot, p);
      ContainsApart(ToLower(a), c, ToLower(b), p);
    }
  }

  lemma SeparatorStays(c: char)
    requires Separates(c)
    ensures ToLower([c]) == [c]
  {
    assert ToLower([c])[0] == c;
  }

  /** Text added before or after never moves the answer to a later slot; it keeps
      it exactly when it brings in no mention of an earlier one. */
  lemma SurroundingText(x: string, a: string, y: string)
    ensures FieldOrder(ExpectedField(x + a + y)) <= FieldOrder(ExpectedField(a))
    ensures FieldOrder(ExpectedField(x + a + y)) == FieldOrder(ExpectedField(a)) <==>
      forall s: Slot :: Order(s) < FieldOrder(ExpectedField(a)) ==> !Mentions(x + a + y, s)
  {
    hide ExpectedField, Mentions;
    var whole, n := x + a + y, FieldOrder(ExpectedField(a));
    FieldOrderOf(a, n);
    FieldOrderOf(whole, n);
    if FieldOrder(ExpectedField(whole)) > n {
      FieldOrderOf(whole, n + 1);
      forall s: Slot | Order(s) < n + 1
        ensures !Mentions(a, s)
      {
        if Mentions(a, s) { MentionWithin(x, a, y, s); }
      }
      FieldOrderOf(a, n + 1);
      assert false;
    }
  }

  /** The words of a sentence and the character that ends it. */
  datatype Sentence = Sentence(words: string, ending: char)

  /** A text of sentences; `tail` is what comes after the last ending. */
  function Join(sentences: seq<Sentence>, tail: string): string
    decreases |sentences|
  {
    if sentences == [] then tail
    else sentences[0].words + [sentences[0].ending] + Join(sentences[1..], tail)
  }

  /** The earliest slot any of the sentences asks for; 5 for none. */
  function Earliest(sentences: seq<Sentence>, tail: string): (n: nat)
    ensures n <= 5
    decreases |sentences|
  {
    if sentences == [] then FieldOrder(ExpectedField(tail))
    else
      var first, rest := FieldOrder(ExpectedField(sentences[0].words)), Earliest(sentences[1..], tail);
      if first < rest then first else rest
  }

  /** Of a text of several sentences the detector names the earliest slot in asking
      order that one of them asks for, whichever comes first in the text. */
  lemma {:induction false} EarliestSentenceWins(sentences: seq<Sentence>, tail: string)
    requires forall i :: 0 <= i < |sentences| ==> Separates(sentences[i].ending)
    ensures FieldOrder(ExpectedField(Join(sentences, tail))) == Earliest(sentences, tail)
    decreases |sentences|
  {
    hide ExpectedField;
    if sentences != [] {
      EarliestSentenceWins(sentences[1..], tail);
      EarlierOfTwo(sentences[0].words, sentences[0].ending, Join(sentences[1..], tail));
    }
  }

  lemma EarlierOfTwo(a: string, c: char, b: string)
    requires Separates(c)
    ensures var first, rest := FieldOrder(ExpectedField(a)), FieldOrder(ExpectedField(b));
      FieldOrder(ExpectedField(a + [c] + b)) == if first < rest then first else rest
  {
    hide Mentions, ExpectedField;
    MentionsApart(a, c, b, Date);
    MentionsApart(a, c, b, Time);
    MentionsApart(a, c, b, Guests);
    MentionsApart(a, c, b, Name);
    MentionsApart(a, c, b, Phone);
    PlaceOfField(a);
    PlaceOfField(b);
    PlaceOfField(a + [c] + b);
  }

  function Upper(c: char): char {
    if 'a' <= c <= 'z' then (c as int - 32) as char else c
  }

  /** Neither `c` nor its capital occurs. */
  ghost predicate NoLetter(s: string, c: char) {
    var u := Upper(c);
    forall i :: 0 <= i < |s| ==> s[i] != c && s[i] != u
  }

  lemma LowerInverse(x: char, c: char)
    requires Lower(x) == c
    ensures x == c || x == Upper(c)
  {
  }

  lemma OccurrenceLetter(s: string, sub: string, i: nat, k: nat)
    requires OccursAt(ToLower(s), sub, i) && k < |sub|
    ensures s[i + k] == sub[k] || s[i + k] == Upper(sub[k])
  {
    assert ToLower(s)[i..i + |sub|][k] == Lower(s[i + k]);
    LowerInverse(s[i + k], sub[k]);
  }

  lemma LacksLetter(s: string, sub: string, k: nat)
    requires k < |sub| && NoLetter(s, sub[k])
    ensures !Contains(ToLower(s), sub)
  {
    forall i: nat | OccursAt(ToLower(s), sub, i)
      ensures false
    {
      OccurrenceLetter(s, sub, i, k);
    }
  }

  lemma HasAt(s: string, sub: string, i: nat)
    requires i + |sub| <= |s|
    requires forall k :: 0 <= k < |sub| ==> Lower(s[i + k]) == sub[k]
    ensures Contains(ToLower(s), sub)
  {
    assert ToLower(s)[i..i + |sub|] == sub;
    assert OccursAt(ToLower(s), sub, i);
  }

  lemma NoLetterInHalves(a: string, b: string, c: char)
    requires NoLetter(a, c) && NoLetter(b, c)
    ensures NoLetter(a + b, c)
  {
  }

  // ---------- The question tables ----------

  const COMPLETION := "One moment, I'll check that."
  // A text is joined from its opening and the rest: the lemmas below look at the
  // two parts one by one.
  const REPEAT := "Sorry, could you repeat "
  const SPELL_NAME := "Sorry, could you spell " + "your name for me please?"
  const SAY_NAME := "Sorry, could you say " + "your name again please?"
  const REPEAT_NUMBER := REPEAT + "the contact number please?"
  const HOW_MANY := "Sorry, how many guests was that?"
  const REPEAT_TIME := REPEAT + "the time please?"
  const REPEAT_DATE := REPEAT + "the date please?"
  const REPEAT_THAT := REPEAT + "that please?"

  /** `clarificationBookingQuestion`. */
  function ClarificationQuestion(field: string, attempt: int): string {
    match field
    case "name" => if attempt >= 2 then SPELL_NAME else SAY_NAME
    case "phone" => REPEAT_NUMBER
    case "guest_count" => HOW_MANY
    case "time" => REPEAT_TIME
    case "date" => REPEAT_DATE
    case _ => REPEAT_THAT
  }

  /** Each clarification names what it asks for; the first one for the name asks to
      say it again, all later ones to spell it. */
  lemma ClarificationWords(attempt: int)
    ensures Contains(ClarificationQuestion("date", attempt), "date")
    ensures Contains(ClarificationQuestion("time", attempt), "time")
    ensures Contains(ClarificationQuestion("guest_count", attempt), "guests")
    ensures Contains(ClarificationQuestion("name", attempt), "name")
    ensures Contains(ClarificationQuestion("phone", attempt), "number")
    ensures Contains(ClarificationQuestion("name", attempt), "again") <==> attempt < 2
    ensures attempt >= 2 ==> Contains(ClarificationQuestion("name", attempt), "spell")
  {
    hide Contains;
    HasWord(REPEAT_DATE, "date", 28);
    HasWord(REPEAT_TIME, "time", 28);
    HasWord(HOW_MANY, "guests", 16);
    HasWord(REPEAT_NUMBER, "number", 36);
    NameWords();
  }

  lemma NameWords()
    ensures Contains(SAY_NAME, "name") && Contains(SPELL_NAME, "name")
    ensures Contains(SPELL_NAME, "spell") && Contains(SAY_NAME, "again") && !Contains(SPELL_NAME, "again")
  {
    HasWord(SAY_NAME, "name", 26);
    HasWord(SPELL_NAME, "name", 28);
    HasWord(SPELL_NAME, "spell", 17);
    HasWord(SAY_NAME, "again", 31);
    NotAgain();
  }

  lemma HasWord(s: string, word: string, i: nat)
    requires i + |word| <= |s| && s[i..i + |word|] == word
    ensures Contains(s, word)
  {
    assert OccursAt(s, word, i);
  }

  lemma NotAgain()
    ensures !Contains(SPELL_NAME, "again")
  {
    assert 'g' !in SPELL_NAME;
    if Contains(SPELL_NAME, "again") {
      LetterOfWord(SPELL_NAME, "again", 1);
    }
  }

  lemma LetterOfWord(s: string, word: string, k: nat)
    requires Contains(s, word) && k < |word|
    ensures word[k] in s
  {
    var i: nat :| i <= |s| && OccursAt(s, word, i);
    assert s[i + k] == s[i..i + |word|][k];
  }

  lemma NoFieldWithout(s: string)
    requires NoLetter(s, 'w') && NoLetter(s, 'k') && NoLetter(s, 'b')
    ensures ExpectedField(s) == ""
  {
    LacksLetter(s, "what date", 0);
    LacksLetter(s, "which date", 0);
    LacksLetter(s, "what day", 0);
    LacksLetter(s, "what time", 0);
    LacksLetter(s, "which time", 0);
    LacksLetter(s, "how many people", 2);
    LacksLetter(s, "how many guests", 2);
    LacksLetter(s, "take your name", 2);
    LacksLetter(s, "what name", 0);
    LacksLetter(s, "contact number", 11);
    LacksLetter(s, "phone number", 9);
    LacksLetter(s, "best contact number", 0);
  }

  lemma NoLettersInHalves(a: string, b: string)
    requires NoLetter(a, 'w') && NoLetter(a, 'k') && NoLetter(a, 'b')
    requires NoLetter(b, 'w') && NoLetter(b, 'k') && NoLetter(b, 'b')
    ensures ExpectedField(a + b) == ""
  {
    NoLetterInHalves(a, b, 'w');
    NoLetterInHalves(a, b, 'k');
    NoLetterInHalves(a, b, 'b');
    NoFieldWithout(a + b);
  }

  /** Five of the seven clarifications name no slot the detector knows. */
  lemma UndetectedClarifications()
    ensures ExpectedField(SPELL_NAME) == ""
    ensures ExpectedField(SAY_NAME) == ""
    ensures ExpectedField(REPEAT_TIME) == ""
    ensures ExpectedField(REPEAT_DATE) == ""
    ensures ExpectedField(REPEAT_THAT) == ""
  {
    hide ExpectedField;
    UndetectedSpell();
    UndetectedSay();
    UndetectedRepeats();
  }

  lemma UndetectedSpell()
    ensures ExpectedField(SPELL_NAME) == ""
  {
    hide ExpectedField;
    NoLettersInHalves("Sorry, could you spell ", "your name for me please?");
  }

  lemma UndetectedSay()
    ensures ExpectedField(SAY_NAME) == ""
  {
    hide ExpectedField;
    NoLettersInHalves("Sorry, could you say ", "your name again please?");
  }

  lemma UndetectedRepeats()
    ensures ExpectedField(REPEAT_TIME) == ""
    ensures ExpectedField(REPEAT_DATE) == ""
    ensures ExpectedField(REPEAT_THAT) == ""
  {
    hide ExpectedField, REPEAT;
    RepeatLacks();
    NoLettersInHalves(REPEAT, "the time please?");
    NoLettersInHalves(REPEAT, "the date please?");
    NoLettersInHalves(REPEAT, "that please?");
  }

  lemma RepeatLacks()
    ensures NoLetter(REPEAT, 'w') && NoLetter(REPEAT, 'k') && NoLetter(REPEAT, 'b')
  {
  }

  /** A text with a contact number but no `w` and no `k` asks for the phone. */
  lemma PhoneWithout(s: string)
    requires NoLetter(s, 'w') && NoLetter(s, 'k')
    requires Contains(ToLower(s), "contact number")
    ensures ExpectedField(s) == "phone"
  {
    LacksLetter(s, "what date", 0);
    LacksLetter(s, "which date", 0);
    LacksLetter(s, "what day", 0);
    LacksLetter(s, "what time", 0);
    LacksLetter(s, "which time", 0);
    LacksLetter(s, "how many people", 2);
    LacksLetter(s, "how many guests", 2);
    LacksLetter(s, "take your name", 2);
    LacksLetter(s, "what name", 0);
  }

  lemma NumberOccurs()
    ensures Contains(ToLower(REPEAT_NUMBER), "contact number")
  {
    var rest := "the contact number please?";
    HasAt(rest, "contact number", 4);
    hide ToLower, Contains, REPEAT;
    LowerConcat(REPEAT, rest);
    ContainsWithin(ToLower(REPEAT), ToLower(rest), "", "contact number");
    assert ToLower(REPEAT) + ToLower(rest) + "" == ToLower(REPEAT_NUMBER);
  }

  lemma NumberClarification()
    ensures ExpectedField(REPEAT_NUMBER) == "phone"
  {
    hide ExpectedField, ToLower, REPEAT;
    RepeatLacks();
    NoLetterInHalves(REPEAT, "the contact number please?", 'w');
    NoLetterInHalves(REPEAT, "the contact number please?", 'k');
    NumberOccurs();
    PhoneWithout(REPEAT_NUMBER);
  }

  lemma GuestsOccur()
    ensures Contains(ToLower(HOW_MANY), "how many guests")
  {
    HasAt(HOW_MANY, "how many guests", 7);
  }

  lemma HowManyLacks(c: char)
    requires c == 'd' || c == 'i'
    ensures NoLetter(HOW_MANY, c)
  {
  }

  lemma GuestsClarification()
    ensures ExpectedField(HOW_MANY) == "guest_count"
  {
    HowManyLacks('d');
    HowManyLacks('i');
    GuestsOccur();
    hide HOW_MANY, Contains;
    LacksLetter(HOW_MANY, "what date", 5);
    LacksLetter(HOW_MANY, "which date", 6);
    LacksLetter(HOW_MANY, "what day", 5);
    LacksLetter(HOW_MANY, "what time", 6);
    LacksLetter(HOW_MANY, "which time", 2);
  }

  lemma NoFieldWithoutY(s: string)
    requires NoLetter(s, 'w') && NoLetter(s, 'y') && NoLetter(s, 'b')
    ensures ExpectedField(s) == ""
  {
    LacksLetter(s, "what date", 0);
    LacksLetter(s, "which date", 0);
    LacksLetter(s, "what day", 0);
    LacksLetter(s, "what time", 0);
    LacksLetter(s, "which time", 0);
    LacksLetter(s, "how many people", 2);
    LacksLetter(s, "how many guests", 2);
    LacksLetter(s, "take your name", 5);
    LacksLetter(s, "what name", 0);
    LacksLetter(s, "contact number", 11);
    LacksLetter(s, "phone number", 9);
    LacksLetter(s, "best contact number", 0);
  }

  lemma CompletionNamesNoField()
    ensures ExpectedField(COMPLETION) == ""
  {
    hide ExpectedField, ToLower;
    CompletionLacks('w');
    CompletionLacks('y');
    CompletionLacks('b');
    NoFieldWithoutY(COMPLETION);
  }

  lemma CompletionLacks(c: char)
    requires c == 'w' || c == 'y' || c == 'b'
    ensures NoLetter(COMPLETION, c)
  {
  }
}
