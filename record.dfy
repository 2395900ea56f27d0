/** One submitted event record, the one-row frame built from it, and its
    split into the fixed categorical and numerical column lists. */
module Record {
  import opened Errors
  import opened Frame

  /** The twelve values the form submits. Budget comes from an unbounded
      number input; Guests and EventDuration come from sliders. */
  datatype EventRecord = EventRecord(
    eventType: string,
    guests: int,
    budget: int,
    eventDuration: int,
    locationType: string,
    season: string,
    timeOfDay: string,
    foodType: string,
    cuisinePreference: string,
    ageGroupOfGuests: string,
    serviceStyle: string,
    specialRequests: string)

  /** What the sliders guarantee of a record submitted from the form:
      10 to 500 guests and 1 to 10 hours. Budget has no bound. */
  predicate FromForm(r: EventRecord) {
    10 <= r.guests <= 500 && 1 <= r.eventDuration <= 10
  }

  /** The one-row frame of a record, its columns in the order the record
      literal lists them. Every value is passed through as submitted; in
      particular a blank special request stays the empty string. */
  function RecordFrame(r: EventRecord): seq<Column> {
    [ Column("EventType", Text(r.eventType)),
      Column("Guests", Number(r.guests)),
      Column("Budget", Number(r.budget)),
      Column("EventDuration", Number(r.eventDuration)),
      Column("LocationType", Text(r.locationType)),
      Column("Season", Text(r.season)),
      Column("TimeOfDay", Text(r.timeOfDay)),
      Column("FoodType", Text(r.foodType)),
      Column("CuisinePreference", Text(r.cuisinePreference)),
      Column("AgeGroupOfGuests", Text(r.ageGroupOfGuests)),
      Column("ServiceStyle", Text(r.serviceStyle)),
      Column("SpecialRequests", Text(r.specialRequests)) ]
  }

  const CategoricalCols: seq<string> :=
    ["EventType", "LocationType", "Season", "TimeOfDay", "FoodType",
     "CuisinePreference", "AgeGroupOfGuests", "ServiceStyle", "SpecialRequests"]

  const NumericalCols: seq<string> := ["Guests", "Budget", "EventDuration"]

  /** The categorical columns of a record, as the encoder receives them. */
  function CategoricalPart(r: EventRecord): seq<Column> {
    [ Column("EventType", Text(r.eventType)),
      Column("LocationType", Text(r.locationType)),
      Column("Season", Text(r.season)),
      Column("TimeOfDay", Text(r.timeOfDay)),
      Column("FoodType", Text(r.foodType)),
      Column("CuisinePreference", Text(r.cuisinePreference)),
      Column("AgeGroupOfGuests", Text(r.ageGroupOfGuests)),
      Column("ServiceStyle", Text(r.serviceStyle)),
      Column("SpecialRequests", Text(r.specialRequests)) ]
  }

  /** The numerical columns of a record, as they enter the combined row. */
  function NumericalPart(r: EventRecord): seq<Column> {
    [ Column("Guests", Number(r.guests)),
      Column("Budget", Number(r.budget)),
      Column("EventDuration", Number(r.eventDuration)) ]
  }

  /** The names of the record frame, in order. */
  lemma RecordFrameNames(r: EventRecord)
    ensures |RecordFrame(r)| == 12
    ensures RecordFrame(r)[0].name == "EventType" && RecordFrame(r)[1].name == "Guests"
    ensures RecordFrame(r)[2].name == "Budget" && RecordFrame(r)[3].name == "EventDuration"
    ensures RecordFrame(r)[4].name == "LocationType" && RecordFrame(r)[5].name == "Season"
    ensures RecordFrame(r)[6].name == "TimeOfDay" && RecordFrame(r)[7].name == "FoodType"
    ensures RecordFrame(r)[8].name == "CuisinePreference" && RecordFrame(r)[9].name == "AgeGroupOfGuests"
    ensures RecordFrame(r)[10].name == "ServiceStyle" && RecordFrame(r)[11].name == "SpecialRequests"
  {
  }

  /** No two columns of the record frame share a name. */
  lemma RecordFrameDistinct(r: EventRecord)
    ensures DistinctNames(RecordFrame(r))
  {
  }

  /** The two column lists are disjoint, neither repeats a name, and
      together they name exactly the twelve columns of the record frame. */
  lemma SplitIsPartition(r: EventRecord)
    ensures Distinct(CategoricalCols) && Distinct(NumericalCols)
    ensures forall n :: n in CategoricalCols ==> n !in NumericalCols
    ensures forall n :: HasColumn(RecordFrame(r), n) <==> n in CategoricalCols || n in NumericalCols
    ensures |CategoricalCols| + |NumericalCols| == |RecordFrame(r)| == 12
  {
    RecordFrameNames(r);
  }

  /** The column that selecting `names` from the record frame puts at
      position `i` is the frame's own column of that name. */
  lemma SelectedAt(r: EventRecord, names: seq<string>, s: seq<Column>, i: nat, k: nat)
    requires Select(RecordFrame(r), names) == Ok(s)
    requires i < |names| && k < 12 && RecordFrame(r)[k].name == names[i]
    ensures i < |s| && s[i] == RecordFrame(r)[k]
  {
    RecordFrameDistinct(r);
    LookupDistinct(RecordFrame(r), k);
  }

  /** Nine columns taken from the record frame at the positions of the
      categorical names are the categorical part. */
  lemma CategoricalLayout(r: EventRecord, s: seq<Column>)
    requires |s| == 9
    requires s[0] == RecordFrame(r)[0] && s[1] == RecordFrame(r)[4] && s[2] == RecordFrame(r)[5]
    requires s[3] == RecordFrame(r)[6] && s[4] == RecordFrame(r)[7] && s[5] == RecordFrame(r)[8]
    requires s[6] == RecordFrame(r)[9] && s[7] == RecordFrame(r)[10] && s[8] == RecordFrame(r)[11]
    ensures s == CategoricalPart(r)
  {
  }

  /** Three columns taken from the record frame at the positions of the
      numerical names are the numerical part. */
  lemma NumericalLayout(r: EventRecord, s: seq<Column>)
    requires |s| == 3
    requires s[0] == RecordFrame(r)[1] && s[1] == RecordFrame(r)[2] && s[2] == RecordFrame(r)[3]
    ensures s == NumericalPart(r)
  {
  }

  /** Every categorical name is a column of the record frame. */
  lemma CategoricalPresent(r: EventRecord)
    ensures Select(RecordFrame(r), CategoricalCols).Ok?
  {
    SplitIsPartition(r);
  }

  /** Every numerical name is a column of the record frame. */
  lemma NumericalPresent(r: EventRecord)
    ensures Select(RecordFrame(r), NumericalCols).Ok?
  {
    SplitIsPartition(r);
  }

  /** Selecting the categorical list from the record frame succeeds and
      yields the nine categorical values, unchanged, in list order. */
  lemma SelectCategorical(r: EventRecord)
    ensures Select(RecordFrame(r), CategoricalCols) == Ok(CategoricalPart(r))
  {
    var names := CategoricalCols;
    CategoricalPresent(r);
    var s := Select(RecordFrame(r), names).value;
    SelectedAt(r, names, s, 0, 0);
    SelectedAt(r, names, s, 1, 4);
    SelectedAt(r, names, s, 2, 5);
    SelectedAt(r, names, s, 3, 6);
    SelectedAt(r, names, s, 4, 7);
    SelectedAt(r, names, s, 5, 8);
    SelectedAt(r, names, s, 6, 9);
    SelectedAt(r, names, s, 7, 10);
    SelectedAt(r, names, s, 8, 11);
    CategoricalLayout(r, s);
  }

  /** Selecting the numerical list from the record frame succeeds and
      yields Guests, Budget and EventDuration, unchanged, in that order. */
  lemma SelectNumerical(r: EventRecord)
    ensures Select(RecordFrame(r), NumericalCols) == Ok(NumericalPart(r))
  {
    var names := NumericalCols;
    NumericalPresent(r);
    var s := Select(RecordFrame(r), names).value;
    SelectedAt(r, names, s, 0, 1);
    SelectedAt(r, names, s, 1, 2);
    SelectedAt(r, names, s, 2, 3);
    NumericalLayout(r, s);
  }
}
