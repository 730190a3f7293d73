/** The booking of a call: what the caller said, what the assistant's questions
    imply, and the pure functions that combine the two. */
module Booking {

  /** The text that stands for a slot the assistant must already know. */
  const PROVIDED := "provided"

  datatype BookingData = BookingData(
    partySize: int, date: string, time: string, name: string, phone: string,
    email: string, notes: string, reference: string)

  const EMPTY := BookingData(0, "", "", "", "", "", "", "")

  datatype Update = Update(date: string, time: string, partySize: int, name: string, phone: string) {
    predicate HasAny() {
      date != "" || time != "" || partySize > 0 || name != "" || phone != ""
    }

    /** What the parsers can return: no negative size, never the placeholder. */
    predicate Parsed() {
      partySize >= 0 && date != PROVIDED && time != PROVIDED && name != PROVIDED && phone != PROVIDED
    }
  }

  /** `mergeBookingSlots`. */
  function Merge(b: BookingData, u: Update, overwrite: bool): BookingData {
    var b := if u.date != "" && (overwrite || b.date == "" || b.date == PROVIDED) then b.(date := u.date) else b;
    var b := if u.time != "" && (overwrite || b.time == "" || b.time == PROVIDED) then b.(time := u.time) else b;
    var b := if u.partySize > 0 && (overwrite || b.partySize <= 0) then b.(partySize := u.partySize) else b;
    var b := if u.name != "" && (overwrite || b.name == "" || b.name == PROVIDED) then b.(name := u.name) else b;
    if u.phone != "" && (overwrite || b.phone == "") then b.(phone := u.phone) else b
  }

  function Implied(text: string): string {
    if text == "" then PROVIDED else text
  }

  function ImpliedSize(n: int): int {
    if n == 0 then -1 else n
  }

  /** `markSlotsImpliedByAssistantQuestion`. */
  function Mark(b: BookingData, field: string): BookingData {
    match field
    case "time" => b.(date := Implied(b.date))
    case "guest_count" => b.(date := Implied(b.date), time := Implied(b.time))
    case "name" => b.(date := Implied(b.date), time := Implied(b.time), partySize := ImpliedSize(b.partySize))
    case "phone" => b.(date := Implied(b.date), time := Implied(b.time),
                       partySize := ImpliedSize(b.partySize), name := Implied(b.name))
    case _ => b
  }

  /** `firstMissingBookingField`. */
  function FirstMissing(b: BookingData): string {
    if b.date == "" then "date"
    else if b.time == "" then "time"
    else if b.partySize == 0 then "guest_count"
    else if b.name == "" then "name"
    else if b.phone == "" then "phone"
    else ""
  }

  /** `BookingData.MissingFields`, which has its own name for the party size. */
  function MissingFields(b: BookingData): seq<string> {
    (if b.date == "" then ["date"] else [])
    + (if b.time == "" then ["time"] else [])
    + (if b.partySize == 0 then ["party_size"] else [])
    + (if b.name == "" then ["name"] else [])
    + (if b.phone == "" then ["phone"] else [])
  }

  predicate IsComplete(b: BookingData) {
    |MissingFields(b)| == 0
  }

  // ---------- Slot by slot ----------

  /** The five slots in the order they are asked for. */
  datatype Slot = Date | Time | Guests | Name | Phone

  datatype Value = Text(text: string) | Count(n: int)

  function Order(slot: Slot): (i: nat)
    ensures i < 5
  {
    match slot
    case Date => 0
    case Time => 1
    case Guests => 2
    case Name => 3
    case Phone => 4
  }

  function FieldName(slot: Slot): string {
    match slot
    case Date => "date"
    case Time => "time"
    case Guests => "guest_count"
    case Name => "name"
    case Phone => "phone"
  }

  /** The place of a field in that order; 5 when nothing is missing. */
  function FieldOrder(field: string): (i: nat)
    ensures i <= 5
  {
    match field
    case "date" => 0
    case "time" => 1
    case "guest_count" => 2
    case "name" => 3
    case "phone" => 4
    case _ => 5
  }

  predicate IsField(field: string) {
    FieldOrder(field) < 5
  }

  function Held(b: BookingData, slot: Slot): Value {
    match slot
    case Date => Text(b.date)
    case Time => Text(b.time)
    case Guests => Count(b.partySize)
    case Name => Text(b.name)
    case Phone => Text(b.phone)
  }

  function Offered(u: Update, slot: Slot): Value {
    match slot
    case Date => Text(u.date)
    case Time => Text(u.time)
    case Guests => Count(u.partySize)
    case Name => Text(u.name)
    case Phone => Text(u.phone)
  }

  datatype Rank = Missing | Inferred | Given

  /** How a slot value came about. A phone number is never inferred. */
  function RankOf(slot: Slot, v: Value): Rank {
    match v
    case Text(t) => if t == "" then Missing else if t == PROVIDED && slot != Phone then Inferred else Given
    case Count(n) => if n == 0 then Missing else if n < 0 then Inferred else Given
  }

  function RankIn(b: BookingData, slot: Slot): Rank {
    RankOf(slot, Held(b, slot))
  }

  function RankNumber(r: Rank): nat {
    match r
    case Missing => 0
    case Inferred => 1
    case Given => 2
  }

  predicate Offers(u: Update, slot: Slot) {
    match slot
    case Guests => u.partySize > 0
    case _ => Offered(u, slot) != Text("")
  }

  /** An update is an answer of some kind exactly if it offers a slot. */
  lemma HasAnyExactly(u: Update)
    ensures u.HasAny() <==> exists slot :: Offers(u, slot)
  {
    if u.HasAny() {
      assert Offers(u, Date) || Offers(u, Time) || Offers(u, Guests) || Offers(u, Name) || Offers(u, Phone);
    }
  }

  /** The placeholder a question leaves in an earlier empty slot. */
  function Placeholder(slot: Slot): Value {
    if slot == Guests then Count(-1) else Text(PROVIDED)
  }

  /** The fields no slot question is about. */
  function Details(b: BookingData): (string, string, string) {
    (b.email, b.notes, b.reference)
  }

  /** A merge takes an offered value unless the caller had given one already and
      is not correcting himself; other slots and details stay. */
  lemma MergeSlot(b: BookingData, u: Update, overwrite: bool, slot: Slot)
    ensures Held(Merge(b, u, overwrite), slot) ==
      if Offers(u, slot) && (overwrite || RankIn(b, slot) != Given) then Offered(u, slot) else Held(b, slot)
    ensures Details(Merge(b, u, overwrite)) == Details(b)
  {
    MergeFields(b, u, overwrite);
    hide RankOf, Merge;
    match slot
    case Date => GivenText(Date, b.date);
    case Time => GivenText(Time, b.time);
    case Guests => GivenSize(b.partySize);
    case Name => GivenText(Name, b.name);
    case Phone => GivenText(Phone, b.phone);
  }

  lemma MergeFields(b: BookingData, u: Update, overwrite: bool)
    ensures var r := Merge(b, u, overwrite);
      && r.date == (if u.date != "" && (overwrite || b.date == "" || b.date == PROVIDED) then u.date else b.date)
      && r.time == (if u.time != "" && (overwrite || b.time == "" || b.time == PROVIDED) then u.time else b.time)
      && r.partySize == (if u.partySize > 0 && (overwrite || b.partySize <= 0) then u.partySize else b.partySize)
      && r.name == (if u.name != "" && (overwrite || b.name == "" || b.name == PROVIDED) then u.name else b.name)
      && r.phone == (if u.phone != "" && (overwrite || b.phone == "") then u.phone else b.phone)
      && Details(r) == Details(b)
  {
  }

  lemma GivenText(slot: Slot, t: string)
    ensures RankOf(slot, Text(t)) == Given <==> t != "" && (t != PROVIDED || slot == Phone)
  {
  }

  lemma GivenSize(n: int)
    ensures RankOf(Guests, Count(n)) == Given <==> n > 0
  {
  }

  /** A question fills exactly the empty slots before the one it asks for. */
  lemma MarkSlot(b: BookingData, field: string, slot: Slot)
    ensures Held(Mark(b, field), slot) ==
      if IsField(field) && Order(slot) < FieldOrder(field) && RankIn(b, slot) == Missing then Placeholder(slot)
      else Held(b, slot)
    ensures Details(Mark(b, field)) == Details(b)
  {
  }

  /** What the caller of an empty booking is asked for last shows in the other
      four slots. */
  lemma PlaceholdersShown()
    ensures var b := Mark(EMPTY, "phone");
      b.date == b.time == b.name == "provided" && b.partySize == -1 && b.phone == ""
  {
  }

  lemma SameSlots(b: BookingData, c: BookingData)
    requires forall slot: Slot :: Held(b, slot) == Held(c, slot)
    requires Details(b) == Details(c)
    ensures b == c
  {
    assert Held(b, Date) == Held(c, Date);
    assert Held(b, Time) == Held(c, Time);
    assert Held(b, Guests) == Held(c, Guests);
    assert Held(b, Name) == Held(c, Name);
    assert Held(b, Phone) == Held(c, Phone);
  }

  /** The first missing field names the first slot that holds nothing. */
  lemma FirstMissingSlot(b: BookingData, slot: Slot)
    ensures FirstMissing(b) == "" <==> forall s: Slot :: RankIn(b, s) != Missing
    ensures FirstMissing(b) == FieldName(slot) <==>
      RankIn(b, slot) == Missing && forall s: Slot :: Order(s) < Order(slot) ==> RankIn(b, s) != Missing
    ensures IsField(FirstMissing(b)) || FirstMissing(b) == ""
  {
    if FirstMissing(b) == "" {
      forall s: Slot
        ensures RankIn(b, s) != Missing
      {
      }
    }
    assert RankIn(b, Date) == Missing <==> b.date == "";
    assert RankIn(b, Time) == Missing <==> b.time == "";
    assert RankIn(b, Guests) == Missing <==> b.partySize == 0;
    assert RankIn(b, Name) == Missing <==> b.name == "";
    assert RankIn(b, Phone) == Missing <==> b.phone == "";
    assert Order(Date) < Order(Time) < Order(Guests) < Order(Name) < Order(Phone);
  }

  /** The two ways of asking what is missing agree. */
  lemma FirstMissingIsHead(b: BookingData)
    ensures IsComplete(b) <==> FirstMissing(b) == ""
    ensures !IsComplete(b) ==>
      FirstMissing(b) == if MissingFields(b)[0] == "party_size" then "guest_count" else MissingFields(b)[0]
  {
  }

  /** The name under which `MissingFields` reports a slot. */
  function ReportName(slot: Slot): string {
    if slot == Guests then "party_size" else FieldName(slot)
  }

  /** The slots of the fields reported, in the order reported. */
  function MissingSlots(b: BookingData): (slots: seq<Slot>)
    ensures forall slot :: slot in slots <==> RankIn(b, slot) == Missing
    ensures forall i, j :: 0 <= i < j < |slots| ==> Order(slots[i]) < Order(slots[j])
  {
    MissingUpTo(b, 5)
  }

  function SlotAt(i: nat): (slot: Slot)
    requires i < 5
    ensures Order(slot) == i
    ensures forall s: Slot :: Order(s) == i ==> s == slot
  {
    [Date, Time, Guests, Name, Phone][i]
  }

  function MissingUpTo(b: BookingData, n: nat): (slots: seq<Slot>)
    requires n <= 5
    ensures forall slot :: slot in slots <==> RankIn(b, slot) == Missing && Order(slot) < n
    ensures forall i, j :: 0 <= i < j < |slots| ==> Order(slots[i]) < Order(slots[j])
  {
    if n == 0 then []
    else
      MissingUpTo(b, n - 1) + if RankIn(b, SlotAt(n - 1)) == Missing then [SlotAt(n - 1)] else []
  }

  function ReportNames(slots: seq<Slot>): (names: seq<string>)
    ensures |names| == |slots|
  {
    seq(|slots|, i requires 0 <= i < |slots| => ReportName(slots[i]))
  }

  lemma NextReported(b: BookingData, slot: Slot)
    ensures ReportNames(MissingUpTo(b, Order(slot) + 1))
         == ReportNames(MissingUpTo(b, Order(slot))) + if RankIn(b, slot) == Missing then [ReportName(slot)] else []
  {
    hide RankIn, ReportName;
    assert SlotAt(Order(slot)) == slot;
  }

  /** `MissingFields` reports exactly the empty slots, in asking order. */
  lemma MissingFieldsExactly(b: BookingData)
    ensures MissingFields(b) == ReportNames(MissingSlots(b))
  {
    EmptyFields(b);
    NothingReported(b);
    hide RankIn, ReportNames, MissingUpTo, ReportName, FieldName;
    ReportedUnder();
    NextReported(b, Date);
    NextReported(b, Time);
    NextReported(b, Guests);
    NextReported(b, Name);
    NextReported(b, Phone);
    assert ReportNames(MissingUpTo(b, 1)) == if b.date == "" then ["date"] else [];
  }

  lemma NothingReported(b: BookingData)
    ensures ReportNames(MissingUpTo(b, 0)) == []
  {
  }

  lemma ReportedUnder()
    ensures ReportName(Date) == "date" && ReportName(Time) == "time" && ReportName(Guests) == "party_size"
    ensures ReportName(Name) == "name" && ReportName(Phone) == "phone"
  {
  }

  lemma EmptyFields(b: BookingData)
    ensures RankIn(b, Date) == Missing <==> b.date == ""
    ensures RankIn(b, Time) == Missing <==> b.time == ""
    ensures RankIn(b, Guests) == Missing <==> b.partySize == 0
    ensures RankIn(b, Name) == Missing <==> b.name == ""
    ensures RankIn(b, Phone) == Missing <==> b.phone == ""
  {
  }

  // ---------- Confluence ----------

  /** What happens to a booking: the caller answers or the assistant asks. */
  datatype Change = Answer(update: Update, overwrite: bool) | Question(field: string)

  function Apply(b: BookingData, c: Change): BookingData {
    match c
    case Answer(u, overwrite) => Merge(b, u, overwrite)
    case Question(field) => Mark(b, field)
  }

  function ApplyAll(b: BookingData, cs: seq<Change>): BookingData
    decreases |cs|
  {
    if cs == [] then b else ApplyAll(Apply(b, cs[0]), cs[1..])
  }

  /** The answers alone, in their order. */
  function Answers(cs: seq<Change>): seq<Change>
    decreases |cs|
  {
    if cs == [] then []
    else (if cs[0].Answer? then [cs[0]] else []) + Answers(cs[1..])
  }

  /** How far in slot order the questions go: a question reaches its own place. */
  function Reach(field: string): nat {
    if IsField(field) then FieldOrder(field) else 0
  }

  function Furthest(cs: seq<Change>): (field: string)
    ensures IsField(field)
    decreases |cs|
  {
    if cs == [] then "date"
    else
      var rest := Furthest(cs[1..]);
      if cs[0].Question? && IsField(cs[0].field) && FieldOrder(cs[0].field) > FieldOrder(rest) then cs[0].field else rest
  }

  lemma MarkByReach(b: BookingData, f: string, g: string)
    requires Reach(f) == Reach(g)
    ensures Mark(b, f) == Mark(b, g)
  {
  }

  /** An answer and a question may be recorded in either order. */
  lemma AnswerAndQuestionCommute(b: BookingData, u: Update, overwrite: bool, field: string)
    ensures Mark(Merge(b, u, overwrite), field) == Merge(Mark(b, field), u, overwrite)
  {
    hide Merge, Mark;
    var markLast, mergeLast := Mark(Merge(b, u, overwrite), field), Merge(Mark(b, field), u, overwrite);
    forall slot: Slot
      ensures Held(markLast, slot) == Held(mergeLast, slot)
    {
      MergeSlot(b, u, overwrite, slot);
      MarkSlot(Merge(b, u, overwrite), field, slot);
      MarkSlot(b, field, slot);
      MergeSlot(Mark(b, field), u, overwrite, slot);
    }
    MergeSlot(b, u, overwrite, Date);
    MarkSlot(Merge(b, u, overwrite), field, Date);
    MarkSlot(b, field, Date);
    MergeSlot(Mark(b, field), u, overwrite, Date);
    SameSlots(markLast, mergeLast);
  }

  /** Two questions do what the further one does alone. */
  lemma QuestionsAbsorb(b: BookingData, f: string, g: string)
    ensures Mark(Mark(b, f), g) == Mark(b, if Reach(f) >= Reach(g) then f else g)
  {
  }

  lemma {:induction false} MarkMovesPastAnswers(b: BookingData, field: string, cs: seq<Change>)
    requires forall i :: 0 <= i < |cs| ==> cs[i].Answer?
    ensures ApplyAll(Mark(b, field), cs) == Mark(ApplyAll(b, cs), field)
    decreases |cs|
  {
    if cs != [] {
      AnswerAndQuestionCommute(b, cs[0].update, cs[0].overwrite, field);
      MarkMovesPastAnswers(Apply(b, cs[0]), field, cs[1..]);
    }
  }

  lemma {:induction false} AnswersOnly(cs: seq<Change>)
    ensures forall i :: 0 <= i < |Answers(cs)| ==> Answers(cs)[i].Answer?
    decreases |cs|
  {
    if cs != [] {
      AnswersOnly(cs[1..]);
    }
  }

  /** Every interleaving ends in the same normal form: the answers merged in
      their order, then the furthest question marked once. */
  lemma {:induction false} NormalForm(b: BookingData, cs: seq<Change>)
    ensures ApplyAll(b, cs) == Mark(ApplyAll(b, Answers(cs)), Furthest(cs))
    decreases |cs|
  {
    hide Merge, Mark;
    if cs == [] {
      MarkSlotsBeforeDate(b);
    } else {
      var c, rest := cs[0], cs[1..];
      NormalForm(Apply(b, c), rest);
      if c.Answer? {
        assert ([c] + Answers(rest))[1..] == Answers(rest);
      } else {
        AnswersOnly(rest);
        MarkMovesPastAnswers(b, c.field, Answers(rest));
        QuestionAbsorbed(ApplyAll(b, Answers(rest)), cs);
        assert Answers(cs) == Answers(rest);
      }
    }
  }

  lemma MarkSlotsBeforeDate(b: BookingData)
    ensures Mark(b, "date") == b
  {
  }

  lemma QuestionAbsorbed(b: BookingData, cs: seq<Change>)
    requires cs != [] && cs[0].Question?
    ensures Mark(Mark(b, cs[0].field), Furthest(cs[1..])) == Mark(b, Furthest(cs))
  {
    hide Mark;
    var field, rest := cs[0].field, Furthest(cs[1..]);
    QuestionsAbsorb(b, field, rest);
    MarkByReach(b, if Reach(field) >= Reach(rest) then field else rest, Furthest(cs));
  }

  /** The slots asked for, in any order. */
  function Asked(cs: seq<Change>): set<string> {
    set i | 0 <= i < |cs| && cs[i].Question? && IsField(cs[i].field) :: cs[i].field
  }

  lemma {:induction false} FurthestBounds(cs: seq<Change>, i: nat)
    requires i < |cs| && cs[i].Question?
    ensures Reach(cs[i].field) <= FieldOrder(Furthest(cs))
    decreases |cs|
  {
    if i > 0 {
      FurthestBounds(cs[1..], i - 1);
    }
  }

  lemma {:induction false} FurthestIsAsked(cs: seq<Change>)
    ensures Furthest(cs) == "date" || exists i :: 0 <= i < |cs| && cs[i] == Question(Furthest(cs))
    decreases |cs|
  {
    if cs != [] {
      FurthestIsAsked(cs[1..]);
      if cs[0].Question? && Furthest(cs) == cs[0].field {
        assert cs[0] == Question(Furthest(cs));
      } else if i :| 0 <= i < |cs[1..]| && cs[1..][i] == Question(Furthest(cs[1..])) {
        assert cs[i + 1] == Question(Furthest(cs));
      }
    }
  }

  lemma FurthestFromAsked(these: seq<Change>, those: seq<Change>)
    requires Asked(these) <= Asked(those)
    ensures FieldOrder(Furthest(these)) <= FieldOrder(Furthest(those))
  {
    FurthestIsAsked(these);
    if Furthest(these) != "date" {
      var i :| 0 <= i < |these| && these[i] == Question(Furthest(these));
      assert Furthest(these) in Asked(those);
      var j :| 0 <= j < |those| && those[j].Question? && those[j].field == Furthest(these);
      FurthestBounds(those, j);
    }
  }

  /** The order in which answers and questions arrive relative to each other
      cannot change the booking; nor can the order of the questions. */
  lemma InterleavingInvisible(b: BookingData, these: seq<Change>, those: seq<Change>)
    requires Answers(these) == Answers(those)
    requires Asked(these) == Asked(those)
    ensures ApplyAll(b, these) == ApplyAll(b, those)
  {
    NormalForm(b, these);
    NormalForm(b, those);
    FurthestFromAsked(these, those);
    FurthestFromAsked(those, these);
    MarkByReach(ApplyAll(b, Answers(these)), Furthest(these), Furthest(those));
  }
}
