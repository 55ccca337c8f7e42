/** The JSON codec of frozen records: which values survive a round trip. */
module Codec {
  import opened Common

  /** A wall-clock time and its offset from UTC; without an offset it is naive. */
  datatype DateTime = DateTime(wallClock: int, offset: Option<int>)

  datatype Value =
    | NoneValue
    | Flag(flag: bool)
    | Number(number: int)
    | Fraction(fraction: real)
    | Text(text: string)
    | Moment(moment: DateTime)
    | Tuple(items: seq<Value>)
    | List(items: seq<Value>)
    | Dict(entries: map<string, Value>)
    | Instance(className: string, fields: map<string, Value>)
    | Unsupported

  datatype Json =
    | JNull
    | JBool(flag: bool)
    | JInt(number: int)
    | JFloat(fraction: real)
    | JString(text: string)
    | JArray(items: seq<Json>)
    | JObject(entries: map<string, Json>)

  const DT := "$dt"
  const TUPLE := "$tuple"
  const CLASS := "$class"
  const VALUE := "v"

  /** Date texts and the registered classes come from outside; `None` stands for a raised error. */
  datatype Library = Library(
    iso: DateTime -> string,
    parse: string -> Option<DateTime>,
    registered: set<string>,
    construct: (string, map<string, Value>) -> Option<Value>)

  /** Parsing inverts formatting, and a class constructor stores the fields it is given. */
  ghost predicate LibraryOk(library: Library) {
    && (forall moment :: library.parse(library.iso(moment)) == Some(moment))
    && (forall name, fields :: Constructs(library.construct(name, fields), name, fields))
  }

  /** A constructor fails, or makes an instance with the given fields, and defaults for the others. */
  ghost predicate Constructs(made: Option<Value>, name: string, fields: map<string, Value>) {
    made.Some? ==>
      && made.value.Instance? && made.value.className == name
      && forall key <- fields :: key in made.value.fields && made.value.fields[key] == fields[key]
  }

  // ---------------------------------------------------------------------
  // Encoding and decoding
  // ---------------------------------------------------------------------

  function Encode(value: Value, library: Library): Option<Json>
    decreases value
  {
    match value
    case Moment(moment) => Some(JObject(map[DT := JString(library.iso(moment))]))
    case Tuple(items) =>
      if forall item <- items :: Encode(item, library).Some? then
        Some(JObject(map[TUPLE := JArray(seq(|items|, i requires 0 <= i < |items| => Encode(items[i], library).value))]))
      else None
    case List(items) =>
      if forall item <- items :: Encode(item, library).Some? then
        Some(JArray(seq(|items|, i requires 0 <= i < |items| => Encode(items[i], library).value)))
      else None
    case Dict(entries) =>
      if forall key <- entries :: Encode(entries[key], library).Some? then
        Some(JObject(map key <- entries :: Encode(entries[key], library).value))
      else None
    case Instance(className, fields) =>
      if forall key <- fields :: Encode(fields[key], library).Some? then
        Some(JObject(map[CLASS := JString(className),
                         VALUE := JObject(map key <- fields :: Encode(fields[key], library).value)]))
      else None
    case NoneValue => Some(JNull)
    case Flag(flag) => Some(JBool(flag))
    case Number(number) => Some(JInt(number))
    case Fraction(fraction) => Some(JFloat(fraction))
    case Text(text) => Some(JString(text))
    case Unsupported => None
  }

  function Aware(moment: DateTime): DateTime {
    if moment.offset == None then moment.(offset := Some(0)) else moment
  }

  function DecodeMoment(json: Json, library: Library): Option<Value> {
    if !json.JString? then None
    else
      match library.parse(json.text)
      case None => None
      case Some(moment) => Some(Moment(Aware(moment)))
  }

  /** The reserved keys are looked for in this order. An object under `$tuple` is read as a failure. */
  function Decode(json: Json, library: Library): Option<Value>
    decreases json
  {
    match json
    case JObject(entries) =>
      if DT in entries then DecodeMoment(entries[DT], library)
      else if TUPLE in entries then
        match entries[TUPLE] {
          case JArray(items) =>
            if forall item <- items :: Decode(item, library).Some? then
              Some(Tuple(seq(|items|, i requires 0 <= i < |items| => Decode(items[i], library).value)))
            else None
          case JString(text) => Some(Tuple(seq(|text|, i requires 0 <= i < |text| => Text([text[i]]))))
          case _ => None
        }
      else if CLASS in entries then
        if entries[CLASS].JString? && entries[CLASS].text in library.registered
           && VALUE in entries && entries[VALUE].JObject?
        then
          var fields := entries[VALUE].entries;
          if forall key <- fields :: Decode(fields[key], library).Some? then
            library.construct(entries[CLASS].text, map key <- fields :: Decode(fields[key], library).value)
          else None
        else None
      else if forall key <- entries :: Decode(entries[key], library).Some? then
        Some(Dict(map key <- entries :: Decode(entries[key], library).value))
      else None
    case JArray(items) =>
      if forall item <- items :: Decode(item, library).Some? then
        Some(List(seq(|items|, i requires 0 <= i < |items| => Decode(items[i], library).value)))
      else None
    case JNull => Some(NoneValue)
    case JBool(flag) => Some(Flag(flag))
    case JInt(number) => Some(Number(number))
    case JFloat(fraction) => Some(Fraction(fraction))
    case JString(text) => Some(Text(text))
  }

  // ---------------------------------------------------------------------
  // What survives
  // ---------------------------------------------------------------------

  ghost predicate RoundTrips(value: Value, library: Library) {
    Encode(value, library).Some? && Decode(Encode(value, library).value, library) == Some(value)
  }

  /**
   * Dates are aware, dicts use none of the reserved keys, and instances belong to a registered class
   * that constructs them from their fields.
   */
  ghost predicate Faithful(value: Value, library: Library)
    decreases value
  {
    match value
    case Moment(moment) => moment.offset.Some?
    case Tuple(items) => forall item <- items :: Faithful(item, library)
    case List(items) => forall item <- items :: Faithful(item, library)
    case Dict(entries) =>
      && DT !in entries && TUPLE !in entries && CLASS !in entries
      && forall key <- entries :: Faithful(entries[key], library)
    case Instance(className, fields) =>
      && className in library.registered && library.construct(className, fields) == Some(value)
      && forall key <- fields :: Faithful(fields[key], library)
    case Unsupported => false
    case _ => true
  }

  /** An encoded list, when every item encodes. */
  function EncodedItems(items: seq<Value>, library: Library): seq<Json>
    requires forall item <- items :: Encode(item, library).Some?
  {
    seq(|items|, i requires 0 <= i < |items| => Encode(items[i], library).value)
  }

  function DecodedItems(items: seq<Json>, library: Library): seq<Value>
    requires forall item <- items :: Decode(item, library).Some?
  {
    seq(|items|, i requires 0 <= i < |items| => Decode(items[i], library).value)
  }

  /** Items come back exactly when each of them does. */
  lemma ItemsRoundTrip(items: seq<Value>, library: Library)
    requires forall item <- items :: Encode(item, library).Some?
    ensures var encoded := EncodedItems(items, library);
            ((forall json <- encoded :: Decode(json, library).Some?) && DecodedItems(encoded, library) == items) <==>
            forall item <- items :: RoundTrips(item, library)
  {
    hide Encode, Decode;
    var encoded := EncodedItems(items, library);
    if (forall json <- encoded :: Decode(json, library).Some?) && DecodedItems(encoded, library) == items {
      forall item <- items ensures RoundTrips(item, library) {
        var i :| 0 <= i < |items| && items[i] == item;
        assert encoded[i] in encoded && DecodedItems(encoded, library)[i] == items[i];
      }
    }
    if forall item <- items :: RoundTrips(item, library) {
      forall i | 0 <= i < |items| ensures Decode(encoded[i], library) == Some(items[i]) {
        assert RoundTrips(items[i], library);
      }
    }
  }

  function EncodedEntries(entries: map<string, Value>, library: Library): map<string, Json>
    requires forall key <- entries :: Encode(entries[key], library).Some?
  {
    map key <- entries :: Encode(entries[key], library).value
  }

  function DecodedEntries(entries: map<string, Json>, library: Library): map<string, Value>
    requires forall key <- entries :: Decode(entries[key], library).Some?
  {
    map key <- entries :: Decode(entries[key], library).value
  }

  ghost predicate EntriesRoundTrip(entries: map<string, Value>, library: Library) {
    forall key <- entries :: RoundTrips(entries[key], library)
  }

  lemma EntriesRoundTripExactly(entries: map<string, Value>, library: Library)
    requires forall key <- entries :: Encode(entries[key], library).Some?
    ensures var encoded := EncodedEntries(entries, library);
            ((forall key <- encoded :: Decode(encoded[key], library).Some?) && DecodedEntries(encoded, library) == entries) <==>
            EntriesRoundTrip(entries, library)
  {
    hide Encode, Decode;
    var encoded := EncodedEntries(entries, library);
    assert encoded.Keys == entries.Keys;
    if (forall key <- encoded :: Decode(encoded[key], library).Some?) && DecodedEntries(encoded, library) == entries {
      forall key <- entries ensures RoundTrips(entries[key], library) {
        assert DecodedEntries(encoded, library)[key] == entries[key];
      }
    }
    if EntriesRoundTrip(entries, library) {
      assert forall key <- entries :: Decode(encoded[key], library) == Some(entries[key]);
    }
  }

  lemma SequenceCodes(items: seq<Value>, library: Library)
    requires forall item <- items :: Encode(item, library).Some?
    ensures Encode(Tuple(items), library) == Some(JObject(map[TUPLE := JArray(EncodedItems(items, library))]))
    ensures Encode(List(items), library) == Some(JArray(EncodedItems(items, library)))
  {
  }

  lemma SequenceDecodes(items: seq<Json>, library: Library)
    ensures (forall item <- items :: Decode(item, library).Some?) ==>
              && Decode(JObject(map[TUPLE := JArray(items)]), library) == Some(Tuple(DecodedItems(items, library)))
              && Decode(JArray(items), library) == Some(List(DecodedItems(items, library)))
    ensures !(forall item <- items :: Decode(item, library).Some?) ==>
              Decode(JObject(map[TUPLE := JArray(items)]), library) == Decode(JArray(items), library) == None
  {
  }

  lemma EncodesParts(value: Value, library: Library)
    requires Encode(value, library).Some?
    ensures value.Tuple? || value.List? ==> forall item <- value.items :: Encode(item, library).Some?
    ensures value.Dict? ==> forall key <- value.entries :: Encode(value.entries[key], library).Some?
    ensures value.Instance? ==> forall key <- value.fields :: Encode(value.fields[key], library).Some?
  {
  }

  lemma SequenceRoundTrips(value: Value, library: Library)
    requires value.Tuple? || value.List?
    ensures RoundTrips(value, library) <==> forall item <- value.items :: RoundTrips(item, library)
  {
    hide Encode, Decode, EncodedItems, DecodedItems;
    if RoundTrips(value, library) {
      EncodesParts(value, library);
    }
    if forall item <- value.items :: Encode(item, library).Some? {
      ItemsRoundTrip(value.items, library);
      SequenceCodes(value.items, library);
      SequenceDecodes(EncodedItems(value.items, library), library);
    }
  }

  lemma DictCodes(entries: map<string, Value>, library: Library)
    requires forall key <- entries :: Encode(entries[key], library).Some?
    ensures Encode(Dict(entries), library) == Some(JObject(EncodedEntries(entries, library)))
    ensures EncodedEntries(entries, library).Keys == entries.Keys
  {
  }

  lemma DictDecodes(entries: map<string, Json>, library: Library)
    requires DT !in entries && TUPLE !in entries && CLASS !in entries
    ensures Decode(JObject(entries), library) ==
            if forall key <- entries :: Decode(entries[key], library).Some?
            then Some(Dict(DecodedEntries(entries, library))) else None
  {
  }

  lemma ReservedIsNoDict(entries: map<string, Json>, library: Library)
    requires LibraryOk(library) && (DT in entries || TUPLE in entries || CLASS in entries)
    ensures var decoded := Decode(JObject(entries), library); decoded.Some? ==> !decoded.value.Dict?
  {
    if DT !in entries && TUPLE !in entries && entries[CLASS].JString? && VALUE in entries && entries[VALUE].JObject? {
      var fields := entries[VALUE].entries;
      if forall key <- fields :: Decode(fields[key], library).Some? {
        assert Constructs(library.construct(entries[CLASS].text, DecodedEntries(fields, library)),
                          entries[CLASS].text, DecodedEntries(fields, library));
      }
    }
  }

  lemma DictRoundTrips(entries: map<string, Value>, library: Library)
    requires LibraryOk(library)
    ensures RoundTrips(Dict(entries), library) <==>
            DT !in entries && TUPLE !in entries && CLASS !in entries && EntriesRoundTrip(entries, library)
  {
    hide Encode, Decode, EncodedEntries, DecodedEntries, LibraryOk;
    if RoundTrips(Dict(entries), library) {
      EncodesParts(Dict(entries), library);
    }
    if forall key <- entries :: Encode(entries[key], library).Some? {
      var encoded := EncodedEntries(entries, library);
      EntriesRoundTripExactly(entries, library);
      DictCodes(entries, library);
      assert forall key :: key in encoded <==> key in entries.Keys;
      if DT in entries || TUPLE in entries || CLASS in entries {
        ReservedIsNoDict(encoded, library);
      } else {
        DictDecodes(encoded, library);
      }
    }
  }

  lemma InstanceCodes(className: string, fields: map<string, Value>, library: Library)
    requires forall key <- fields :: Encode(fields[key], library).Some?
    ensures Encode(Instance(className, fields), library) ==
            Some(JObject(map[CLASS := JString(className), VALUE := JObject(EncodedEntries(fields, library))]))
    ensures EncodedEntries(fields, library).Keys == fields.Keys
  {
  }

  lemma InstanceDecodes(className: string, fields: map<string, Json>, library: Library)
    ensures Decode(JObject(map[CLASS := JString(className), VALUE := JObject(fields)]), library) ==
            if className in library.registered && forall key <- fields :: Decode(fields[key], library).Some?
            then library.construct(className, DecodedEntries(fields, library)) else None
  {
    var entries := map[CLASS := JString(className), VALUE := JObject(fields)];
    assert DT !in entries && TUPLE !in entries && entries[CLASS] == JString(className);
  }

  /** A constructor that yields these fields was given these fields. */
  lemma SameFields(given: map<string, Value>, fields: map<string, Value>, className: string, library: Library)
    requires LibraryOk(library) && given.Keys == fields.Keys
    requires library.construct(className, given) == Some(Instance(className, fields))
    ensures given == fields
  {
    assert Constructs(library.construct(className, given), className, given);
  }

  lemma InstanceRoundTrips(className: string, fields: map<string, Value>, library: Library)
    requires LibraryOk(library)
    ensures RoundTrips(Instance(className, fields), library) <==>
            && className in library.registered && EntriesRoundTrip(fields, library)
            && library.construct(className, fields) == Some(Instance(className, fields))
  {
    hide Encode, Decode, EncodedEntries, LibraryOk;
    if RoundTrips(Instance(className, fields), library) {
      EncodesParts(Instance(className, fields), library);
    }
    if forall key <- fields :: Encode(fields[key], library).Some? {
      var encoded := EncodedEntries(fields, library);
      EntriesRoundTripExactly(fields, library);
      InstanceCodes(className, fields, library);
      InstanceDecodes(className, encoded, library);
      if RoundTrips(Instance(className, fields), library) {
        assert DecodedEntries(encoded, library).Keys == fields.Keys;
        SameFields(DecodedEntries(encoded, library), fields, className, library);
      }
    }
  }

  /** A value comes back as it was exactly when it is faithful. */
  lemma {:induction false} RoundTripsExactly(value: Value, library: Library)
    requires LibraryOk(library)
    ensures RoundTrips(value, library) <==> Faithful(value, library)
    decreases value
  {
    hide RoundTrips, Encode, Decode, LibraryOk;
    match value
    case Tuple(items) =>
      SequenceRoundTrips(value, library);
      forall item <- items ensures RoundTrips(item, library) <==> Faithful(item, library) {
        RoundTripsExactly(item, library);
      }
    case List(items) =>
      SequenceRoundTrips(value, library);
      forall item <- items ensures RoundTrips(item, library) <==> Faithful(item, library) {
        RoundTripsExactly(item, library);
      }
    case Dict(entries) =>
      DictRoundTrips(entries, library);
      forall key <- entries ensures RoundTrips(entries[key], library) <==> Faithful(entries[key], library) {
        RoundTripsExactly(entries[key], library);
      }
    case Instance(className, fields) =>
      InstanceRoundTrips(className, fields, library);
      forall key <- fields ensures RoundTrips(fields[key], library) <==> Faithful(fields[key], library) {
        RoundTripsExactly(fields[key], library);
      }
    case _ => LeafRoundTrips(value, library);
  }

  predicate Leaf(value: Value) {
    !value.Tuple? && !value.List? && !value.Dict? && !value.Instance?
  }

  lemma LeafRoundTrips(value: Value, library: Library)
    requires LibraryOk(library) && Leaf(value)
    ensures RoundTrips(value, library) <==> Faithful(value, library)
  {
  }

  /** Different faithful values have different encodings. */
  lemma EncodingIsInjective(a: Value, b: Value, library: Library)
    requires LibraryOk(library) && Faithful(a, library) && Faithful(b, library)
    requires Encode(a, library) == Encode(b, library)
    ensures a == b
  {
    RoundTripsExactly(a, library);
    RoundTripsExactly(b, library);
  }

  /** Off the faithful values it is not: a dict with the reserved key encodes like the date it imitates. */
  lemma ReservedKeyCollides(moment: DateTime, library: Library)
    ensures var imitation := Dict(map[DT := Text(library.iso(moment))]);
            && imitation != Moment(moment)
            && Encode(imitation, library) == Encode(Moment(moment), library)
  {
    var entries := map[DT := Text(library.iso(moment))];
    assert forall key <- entries :: Encode(entries[key], library) == Some(JString(library.iso(moment)));
    assert EncodedEntries(entries, library) == map[DT := JString(library.iso(moment))];
    assert Encode(Dict(entries), library) == Some(JObject(EncodedEntries(entries, library)));
  }

  /** A naive date comes back in UTC. */
  lemma NaiveDateGainsUtc(wallClock: int, library: Library)
    requires LibraryOk(library)
    ensures var naive := Moment(DateTime(wallClock, None));
            Decode(Encode(naive, library).value, library) == Some(Moment(DateTime(wallClock, Some(0))))
  {
    assert library.parse(library.iso(DateTime(wallClock, None))) == Some(DateTime(wallClock, None));
  }

  // ---------------------------------------------------------------------
  // The stored form
  // ---------------------------------------------------------------------

  /** What is written for each kind of value, down to the reserved keys. */
  lemma StoredForm(value: Value, library: Library)
    requires Encode(value, library).Some?
    ensures var json := Encode(value, library).value;
            match value
            case NoneValue => json == JNull
            case Flag(flag) => json == JBool(flag)
            case Number(number) => json == JInt(number)
            case Fraction(fraction) => json == JFloat(fraction)
            case Text(text) => json == JString(text)
            case Moment(moment) => json == JObject(map["$dt" := JString(library.iso(moment))])
            case Tuple(items) => json.JObject? && json.entries.Keys == {"$tuple"} && ArrayOf(json.entries["$tuple"], items, library)
            case List(items) => ArrayOf(json, items, library)
            case Dict(entries) => ObjectOf(json, entries, library)
            case Instance(className, fields) =>
              && json.JObject? && json.entries.Keys == {"$class", "v"}
              && json.entries["$class"] == JString(className) && ObjectOf(json.entries["v"], fields, library)
            case Unsupported => false
  {
    assert "$class" != "v" by {
      assert |"$class"| != |"v"|;
    }
  }

  /** An array of the items' own stored forms, in order. */
  ghost predicate ArrayOf(json: Json, items: seq<Value>, library: Library) {
    && json.JArray? && |json.items| == |items|
    && forall i | 0 <= i < |items| :: Encode(items[i], library) == Some(json.items[i])
  }

  ghost predicate ObjectOf(json: Json, entries: map<string, Value>, library: Library) {
    && json.JObject? && json.entries.Keys == entries.Keys
    && forall key <- entries :: Encode(entries[key], library) == Some(json.entries[key])
  }

  /** A value can be written exactly when nothing in it is of an unsupported kind. */
  lemma {:induction false} EncodesExactly(value: Value, library: Library)
    ensures Encode(value, library).Some? <==> Supported(value)
    decreases value
  {
    match value
    case Tuple(items) =>
      forall item <- items ensures Encode(item, library).Some? <==> Supported(item) {
        EncodesExactly(item, library);
      }
    case List(items) =>
      forall item <- items ensures Encode(item, library).Some? <==> Supported(item) {
        EncodesExactly(item, library);
      }
    case Dict(entries) =>
      forall key <- entries ensures Encode(entries[key], library).Some? <==> Supported(entries[key]) {
        EncodesExactly(entries[key], library);
      }
    case Instance(_, fields) =>
      forall key <- fields ensures Encode(fields[key], library).Some? <==> Supported(fields[key]) {
        EncodesExactly(fields[key], library);
      }
    case _ =>
  }

  predicate Supported(value: Value)
    decreases value
  {
    match value
    case Tuple(items) => forall item <- items :: Supported(item)
    case List(items) => forall item <- items :: Supported(item)
    case Dict(entries) => forall key <- entries :: Supported(entries[key])
    case Instance(_, fields) => forall key <- fields :: Supported(fields[key])
    case Unsupported => false
    case _ => true
  }

  /** A text under the tuple key is read as the tuple of its characters. */
  lemma TextUnderTupleKey(text: string, library: Library)
    ensures var decoded := Decode(JObject(map["$tuple" := JString(text)]), library);
            && decoded.Some? && decoded.value.Tuple? && |decoded.value.items| == |text|
            && forall i | 0 <= i < |text| :: decoded.value.items[i] == Text([text[i]])
  {
    assert DT != "$tuple" by {
      assert |DT| != |"$tuple"|;
    }
  }
}
