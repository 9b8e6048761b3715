/** GELF records: reading them from a JSON object, and writing them out again. */
module GelfMessages {
  import opened Common
  import Pipeline
  import MessageQueues

  // ---- JSON as the parser delivers it ----

  datatype Json =
    | JString(s: string)
    | JInt(i: int)
    | JDouble(d: real)
    | JBool(b: bool)
    | JOther

  datatype Member = Member(name: string, value: Json)

  datatype Document = Malformed | NotAnObject | Object(members: seq<Member>)

  /** What a double can be. */
  datatype Number = Finite(value: real) | Infinite(positive: bool) | NaN

  /** Library functions: which integers a double holds exactly, the number a string begins
      with (None where the library throws), and the clock. A string can spell a number that
      is not finite; a JSON number cannot. */
  datatype Library = Library(
    exact: int -> bool,
    stod: string -> Option<Number>,
    stoi: string -> Option<int>,
    now: real)

  datatype Value = Text(s: string) | Int(i: int) | Double(d: real) | Bool(b: bool)

  datatype Gelf = Gelf(
    version: string,
    host: string,
    shortMessage: string,
    fullMessage: string,
    timestamp: Number,
    level: nat,
    fields: map<string, Value>)

  /** ParseError is the exception the pipeline handles; the number functions throw others. */
  datatype Error = ParseError | LibraryError

  datatype Result<T> = Ok(value: T) | Err(error: Error)

  const MIN_TIMESTAMP: real := 1546300800.0

  predicate IsInt32(i: int) {
    -0x8000_0000 <= i < 0x8000_0000
  }

  /** A string that goes through a C string ends at its first NUL character. */
  function CString(s: string): string {
    if s == "" || s[0] == '\0' then "" else [s[0]] + CString(s[1..])
  }

  predicate NulFree(s: string) {
    forall i :: 0 <= i < |s| ==> s[i] != '\0'
  }

  lemma {:induction false} CStringNulFree(s: string)
    ensures NulFree(CString(s))
    ensures NulFree(s) ==> CString(s) == s
  {
    if s != "" && s[0] != '\0' {
      CStringNulFree(s[1..]);
      assert s == [s[0]] + s[1..];
      if NulFree(s) {
        assert forall i :: 0 <= i < |s| - 1 ==> s[1..][i] == s[i + 1];
      }
    }
  }

  function Find(members: seq<Member>, name: string): Option<Json> {
    if members == [] then None
    else if members[0].name == name then Some(members[0].value)
    else Find(members[1..], name)
  }

  datatype SystemField = Version | Host | ShortMessage | FullMessage | Timestamp | Level

  function Spelling(f: SystemField): string {
    match f
    case Version => "version"
    case Host => "host"
    case ShortMessage => "short_message"
    case FullMessage => "full_message"
    case Timestamp => "timestamp"
    case Level => "level"
  }

  predicate IsSystemField(key: string) {
    exists f: SystemField :: Spelling(f) == key
  }

  /** The reserved names differ from each other and from the names of additional fields. */
  lemma SpellingsDistinct(f: SystemField, g: SystemField)
    ensures Spelling(f) == Spelling(g) ==> f == g
    ensures Spelling(f) != "" && Spelling(f)[0] != '_' && NulFree(Spelling(f))
  {
  }

  // ---- Reading ----

  /** A mandatory string member that must not be empty. */
  function Mandatory(members: seq<Member>, name: string): Result<string> {
    match Find(members, name)
    case Some(JString(s)) => if CString(s) == "" then Err(ParseError) else Ok(CString(s))
    case _ => Err(ParseError)
  }

  function ReadVersion(members: seq<Member>): Result<string> {
    match Find(members, Spelling(Version))
    case Some(JString(s)) => if CString(s) != "1.1" then Err(ParseError) else Ok(CString(s))
    case _ => Err(ParseError)
  }

  function ReadFullMessage(members: seq<Member>): Result<string> {
    match Find(members, Spelling(FullMessage))
    case None => Ok("")
    case Some(JString(s)) => Ok(CString(s))
    case _ => Err(ParseError)
  }

  /** A comparison with a number that is none is false. */
  predicate Less(t: Number, limit: real) {
    match t
    case Finite(value) => value < limit
    case Infinite(positive) => !positive
    case NaN => false
  }

  function CheckTimestamp(t: Number): Result<Number> {
    if Less(t, MIN_TIMESTAMP) then Err(ParseError) else Ok(t)
  }

  function ReadTimestamp(lib: Library, members: seq<Member>): Result<Number> {
    match Find(members, Spelling(Timestamp))
    case None => Ok(Finite(lib.now))
    case Some(JDouble(d)) => CheckTimestamp(Finite(d))
    case Some(JInt(i)) => if lib.exact(i) then CheckTimestamp(Finite(i as real)) else Err(ParseError)
    case Some(JString(s)) =>
      (match lib.stod(CString(s))
       case Some(t) => CheckTimestamp(t)
       case None => Err(LibraryError))
    case _ => Err(ParseError)
  }

  /** The level is one byte: it is truncated before its range is checked. */
  function CheckLevel(i: int): Result<nat> {
    if i % 256 < 1 || i % 256 >= 10 then Err(ParseError) else Ok(i % 256)
  }

  function ReadLevel(lib: Library, members: seq<Member>): Result<nat> {
    match Find(members, Spelling(Level))
    case None => Ok(1)
    case Some(JInt(i)) => if IsInt32(i) then CheckLevel(i) else Err(ParseError)
    case Some(JString(s)) =>
      (match lib.stoi(CString(s))
       case Some(i) => CheckLevel(i)
       case None => Err(LibraryError))
    case _ => Err(ParseError)
  }

  function FieldKey(name: string): string {
    var key := CString(name);
    if key != "" && key[0] == '_' then key else "_" + key
  }

  function FieldValue(value: Json): Result<Value> {
    match value
    case JString(s) => Ok(Text(CString(s)))
    case JInt(i) => if IsInt32(i) then Ok(Int(i)) else Err(ParseError)
    case JDouble(d) => Ok(Double(d))
    case JBool(b) => Ok(Bool(b))
    case JOther => Err(ParseError)
  }

  /** The other members, in order; the first of several with the same key stays. */
  function ReadFields(fields: map<string, Value>, members: seq<Member>): Result<map<string, Value>>
    decreases |members|
  {
    if members == [] then Ok(fields)
    else if IsSystemField(CString(members[0].name)) then ReadFields(fields, members[1..])
    else match FieldValue(members[0].value)
      case Err(e) => Err(e)
      case Ok(v) =>
        var key := FieldKey(members[0].name);
        ReadFields(if key in fields then fields else fields[key := v], members[1..])
  }

  function Read(lib: Library, document: Document): Result<Gelf> {
    if !document.Object? then Err(ParseError) else
      var members := document.members;
      match ReadVersion(members)
      case Err(e) => Err(e)
      case Ok(version) =>
        match Mandatory(members, Spelling(Host))
        case Err(e) => Err(e)
        case Ok(host) =>
          match Mandatory(members, Spelling(ShortMessage))
          case Err(e) => Err(e)
          case Ok(short) =>
            match ReadFullMessage(members)
            case Err(e) => Err(e)
            case Ok(full) => ReadRest(lib, members, Gelf(version, host, short, full, Finite(0.0), 0, map[]))
  }

  function ReadRest(lib: Library, members: seq<Member>, g: Gelf): Result<Gelf> {
    match ReadTimestamp(lib, members)
    case Err(e) => Err(e)
    case Ok(timestamp) =>
      match ReadLevel(lib, members)
      case Err(e) => Err(e)
      case Ok(level) =>
        match ReadFields(map[], members)
        case Err(e) => Err(e)
        case Ok(fields) => Ok(g.(timestamp := timestamp, level := level, fields := fields))
  }

  /** The loop over the members that collects the additional fields. */
  method CollectFields(members: seq<Member>) returns (r: Result<map<string, Value>>)
    ensures r == ReadFields(map[], members)
  {
    var fields := map[];
    var i := 0;
    assert members[0..] == members;
    while i < |members|
      invariant i <= |members|
      invariant ReadFields(fields, members[i..]) == ReadFields(map[], members)
    {
      assert members[i..][0] == members[i] && members[i..][1..] == members[i + 1..];
      if !IsSystemField(CString(members[i].name)) {
        var value := FieldValue(members[i].value);
        if value.Err? {
          return Err(value.error);
        }
        var key := FieldKey(members[i].name);
        if key !in fields {
          fields := fields[key := value.value];
        }
      }
      i := i + 1;
    }
    return Ok(fields);
  }

  // ---- Writing ----

  function ToJson(v: Value): Json {
    match v
    case Text(s) => JString(s)
    case Int(i) => JInt(i)
    case Double(d) => JDouble(d)
    case Bool(b) => JBool(b)
  }

  function FieldMembers(fields: map<string, Value>, order: seq<string>): (r: seq<Member>)
    requires forall i :: 0 <= i < |order| ==> order[i] in fields
    ensures |r| == |order|
  {
    if order == [] then [] else
      [Member(CString(order[0]), ToJson(fields[order[0]]))] + FieldMembers(fields, order[1..])
  }

  function FullMessageMember(g: Gelf): seq<Member> {
    if g.fullMessage == "" then [] else [Member(Spelling(FullMessage), JString(g.fullMessage))]
  }

  function LevelMember(g: Gelf): seq<Member> {
    if g.level == 0 then [] else [Member(Spelling(Level), JInt(g.level))]
  }

  /** The members of a record with a timestamp that can be written. */
  function SystemMembers(g: Gelf): seq<Member>
    requires g.timestamp.Finite?
  {
    [Member(Spelling(Version), JString(g.version))] +
    ([Member(Spelling(Host), JString(g.host))] +
     ([Member(Spelling(ShortMessage), JString(g.shortMessage))] +
      (FullMessageMember(g) +
       ([Member(Spelling(Timestamp), JDouble(g.timestamp.value))] + LevelMember(g)))))
  }

  /** The order in which the hash table happens to list its keys. */
  predicate Lists(order: seq<string>, fields: map<string, Value>) {
    && (forall i :: 0 <= i < |order| ==> order[i] in fields)
    && (forall i, j :: 0 <= i < j < |order| ==> order[i] != order[j])
    && (forall k :: k in fields ==> k in order)
  }

  function Members(g: Gelf, order: seq<string>): seq<Member>
    requires g.timestamp.Finite? && Lists(order, g.fields)
  {
    SystemMembers(g) + FieldMembers(g.fields, order)
  }

  /** The writer writes nothing for a number that is not finite, and what is left is no JSON. */
  function Dump(g: Gelf, order: seq<string>): Document
    requires Lists(order, g.fields)
  {
    if g.timestamp.Finite? then Object(Members(g, order)) else Malformed
  }

  // ---- What reading guarantees ----

  predicate WellformedValue(v: Value) {
    match v
    case Text(s) => NulFree(s)
    case Int(i) => IsInt32(i)
    case _ => true
  }

  predicate WellformedFields(fields: map<string, Value>) {
    forall k :: k in fields ==> k != "" && k[0] == '_' && NulFree(k) && WellformedValue(fields[k])
  }

  /** A record as it comes out of the constructor. */
  predicate Wellformed(g: Gelf) {
    && g.version == "1.1"
    && g.host != "" && NulFree(g.host)
    && g.shortMessage != "" && NulFree(g.shortMessage)
    && NulFree(g.fullMessage)
    && 1 <= g.level < 10
    && WellformedFields(g.fields)
  }

  lemma {:induction false} ReadFieldsWellformed(fields: map<string, Value>, members: seq<Member>)
    requires WellformedFields(fields)
    ensures var r := ReadFields(fields, members); r.Ok? ==> WellformedFields(r.value)
    decreases |members|
  {
    if members != [] {
      CStringNulFree(members[0].name);
      if members[0].value.JString? {
        CStringNulFree(members[0].value.s);
      }
      var v := FieldValue(members[0].value);
      var key := FieldKey(members[0].name);
      if IsSystemField(CString(members[0].name)) {
        ReadFieldsWellformed(fields, members[1..]);
      } else if v.Ok? {
        assert NulFree(key);
        ReadFieldsWellformed(if key in fields then fields else fields[key := v.value], members[1..]);
      }
    }
  }

  lemma ReadIsWellformed(lib: Library, document: Document)
    ensures var r := Read(lib, document); r.Ok? ==> Wellformed(r.value)
  {
    if document.Object? {
      var members := document.members;
      ReadFieldsWellformed(map[], members);
      StringsNulFree(members, Spelling(Host));
      StringsNulFree(members, Spelling(ShortMessage));
      StringsNulFree(members, Spelling(FullMessage));
    }
  }

  lemma StringsNulFree(members: seq<Member>, name: string)
    ensures var v := Find(members, name); v.Some? && v.value.JString? ==> NulFree(CString(v.value.s))
  {
    var v := Find(members, name);
    if v.Some? && v.value.JString? {
      CStringNulFree(v.value.s);
    }
  }

  // ---- Reading what was written ----

  lemma {:induction false} FindAppend(a: seq<Member>, b: seq<Member>, name: string)
    ensures Find(a + b, name) == if Find(a, name).Some? then Find(a, name) else Find(b, name)
  {
    if a == [] {
      assert a + b == b;
    } else {
      assert (a + b)[1..] == a[1..] + b;
      FindAppend(a[1..], b, name);
    }
  }

  lemma FieldIsNotSystem(key: string)
    requires key != "" && key[0] == '_'
    ensures !IsSystemField(key)
  {
    hide Spelling;
    forall f: SystemField ensures Spelling(f) != key {
      SpellingsDistinct(f, f);
    }
  }

  lemma {:induction false} FieldsAreNotSystem(fields: map<string, Value>, order: seq<string>, f: SystemField)
    requires WellformedFields(fields) && (forall i :: 0 <= i < |order| ==> order[i] in fields)
    ensures Find(FieldMembers(fields, order), Spelling(f)) == None
  {
    hide Spelling;
    if order != [] {
      CStringNulFree(order[0]);
      SpellingsDistinct(f, f);
      FieldsAreNotSystem(fields, order[1..], f);
      assert FieldMembers(fields, order)[1..] == FieldMembers(fields, order[1..]);
    }
  }

  predicate SystemNamed(members: seq<Member>) {
    forall i :: 0 <= i < |members| ==> IsSystemField(members[i].name) && NulFree(members[i].name)
  }

  /** System members contribute no fields. */
  lemma {:induction false} SystemSkipped(fields: map<string, Value>, a: seq<Member>, b: seq<Member>)
    requires SystemNamed(a)
    ensures ReadFields(fields, a + b) == ReadFields(fields, b)
    decreases |a|
  {
    if a == [] {
      assert a + b == b;
    } else {
      hide IsSystemField;
      assert (a + b)[1..] == a[1..] + b && (a + b)[0] == a[0];
      CStringNulFree(a[0].name);
      assert SystemNamed(a[1..]) by { assert forall i :: 0 <= i < |a| - 1 ==> a[1..][i] == a[i + 1]; }
      SystemSkipped(fields, a[1..], b);
    }
  }

  lemma OneNamed(f: SystemField, value: Json)
    ensures SystemNamed([Member(Spelling(f), value)])
  {
    hide Spelling;
    SpellingsDistinct(f, f);
    assert IsSystemField(Spelling(f));
  }

  lemma NamedAppend(a: seq<Member>, b: seq<Member>)
    requires SystemNamed(a) && SystemNamed(b)
    ensures SystemNamed(a + b)
  {
  }

  lemma SystemMembersNamed(g: Gelf)
    requires g.timestamp.Finite?
    ensures SystemNamed(SystemMembers(g))
  {
    hide Spelling, SystemNamed;
    assert SystemNamed([]) by { EmptyNamed(); }
    OneNamed(Version, JString(g.version));
    OneNamed(Host, JString(g.host));
    OneNamed(ShortMessage, JString(g.shortMessage));
    OneNamed(FullMessage, JString(g.fullMessage));
    OneNamed(Timestamp, JDouble(g.timestamp.value));
    OneNamed(Level, JInt(g.level));
    var last := [Member(Spelling(Timestamp), JDouble(g.timestamp.value))] + LevelMember(g);
    var short := [Member(Spelling(ShortMessage), JString(g.shortMessage))] + (FullMessageMember(g) + last);
    NamedAppend([Member(Spelling(Timestamp), JDouble(g.timestamp.value))], LevelMember(g));
    NamedAppend(FullMessageMember(g), last);
    NamedAppend([Member(Spelling(ShortMessage), JString(g.shortMessage))], FullMessageMember(g) + last);
    NamedAppend([Member(Spelling(Host), JString(g.host))], short);
    NamedAppend([Member(Spelling(Version), JString(g.version))], [Member(Spelling(Host), JString(g.host))] + short);
  }

  lemma EmptyNamed()
    ensures SystemNamed([])
  {
  }

  /** The fields that are still to be read, and those that were. */
  predicate Partial(fields: map<string, Value>, order: seq<string>, got: map<string, Value>) {
    && (forall i :: 0 <= i < |order| ==> order[i] in fields && order[i] !in got)
    && (forall i, j :: 0 <= i < j < |order| ==> order[i] != order[j])
    && (forall k :: k in got ==> k in fields && got[k] == fields[k])
    && (forall k :: k in fields ==> k in got || k in order)
  }

  lemma PartialStep(fields: map<string, Value>, order: seq<string>, got: map<string, Value>)
    requires Partial(fields, order, got) && order != []
    ensures Partial(fields, order[1..], got[order[0] := fields[order[0]]])
  {
    assert order == [order[0]] + order[1..];
  }

  lemma OneFieldReadBack(fields: map<string, Value>, k: string)
    requires WellformedFields(fields) && k in fields
    ensures CString(k) == k && FieldKey(k) == k && !IsSystemField(k)
    ensures FieldValue(ToJson(fields[k])) == Ok(fields[k])
  {
    CStringNulFree(k);
    FieldIsNotSystem(k);
    if fields[k].Text? {
      CStringNulFree(fields[k].s);
    }
  }

  /** The written fields are read back one by one. */
  lemma {:induction false} FieldsReadBack(fields: map<string, Value>, order: seq<string>, got: map<string, Value>)
    requires WellformedFields(fields) && Partial(fields, order, got)
    ensures ReadFields(got, FieldMembers(fields, order)) == Ok(fields)
    decreases |order|
  {
    if order == [] {
      assert got == fields;
    } else {
      OneFieldReadBack(fields, order[0]);
      PartialStep(fields, order, got);
      hide WellformedFields, CString, FieldKey, FieldValue, ToJson, IsSystemField;
      assert FieldMembers(fields, order)[1..] == FieldMembers(fields, order[1..]);
      FieldsReadBack(fields, order[1..], got[order[0] := fields[order[0]]]);
    }
  }

  /** What a dump holds under a reserved name. */
  function Entry(g: Gelf, f: SystemField): Option<Json>
    requires g.timestamp.Finite?
  {
    match f
    case Version => Some(JString(g.version))
    case Host => Some(JString(g.host))
    case ShortMessage => Some(JString(g.shortMessage))
    case FullMessage => if g.fullMessage == "" then None else Some(JString(g.fullMessage))
    case Timestamp => Some(JDouble(g.timestamp.value))
    case Level => if g.level == 0 then None else Some(JInt(g.level))
  }

  lemma FindOne(f: SystemField, value: Json, rest: seq<Member>, g: SystemField)
    ensures Find([Member(Spelling(f), value)] + rest, Spelling(g)) ==
            if f == g then Some(value) else Find(rest, Spelling(g))
  {
    hide Spelling;
    SpellingsDistinct(f, g);
    assert ([Member(Spelling(f), value)] + rest)[1..] == rest;
  }

  lemma FoundInSystem(g: Gelf, f: SystemField)
    requires g.timestamp.Finite?
    ensures Find(SystemMembers(g), Spelling(f)) == Entry(g, f)
  {
    hide Spelling, Find;
    var last := [Member(Spelling(Timestamp), JDouble(g.timestamp.value))] + LevelMember(g);
    var short := [Member(Spelling(ShortMessage), JString(g.shortMessage))] + (FullMessageMember(g) + last);
    FindOne(Version, JString(g.version), [Member(Spelling(Host), JString(g.host))] + short, f);
    FindOne(Host, JString(g.host), short, f);
    FindOne(ShortMessage, JString(g.shortMessage), FullMessageMember(g) + last, f);
    FindOne(FullMessage, JString(g.fullMessage), last, f);
    assert [] + last == last;
    FindOne(Timestamp, JDouble(g.timestamp.value), LevelMember(g), f);
    FindOne(Level, JInt(g.level), [], f);
    assert [Member(Spelling(Level), JInt(g.level))] + [] == [Member(Spelling(Level), JInt(g.level))];
    FindNothing(Spelling(f));
  }

  lemma FindNothing(name: string)
    ensures Find([], name) == None
  {
  }

  /** The reserved members of a dump, found by name. */
  lemma FoundInDump(g: Gelf, order: seq<string>, f: SystemField)
    requires Wellformed(g) && g.timestamp.Finite? && Lists(order, g.fields)
    ensures Find(Members(g, order), Spelling(f)) == Entry(g, f)
  {
    hide Spelling, Find, SystemMembers;
    FindAppend(SystemMembers(g), FieldMembers(g.fields, order), Spelling(f));
    FieldsAreNotSystem(g.fields, order, f);
    FoundInSystem(g, f);
  }

  lemma FieldsOfDump(g: Gelf, order: seq<string>)
    requires Wellformed(g) && g.timestamp.Finite? && Lists(order, g.fields)
    ensures ReadFields(map[], Members(g, order)) == Ok(g.fields)
  {
    hide SystemMembers, ReadFields;
    SystemMembersNamed(g);
    SystemSkipped(map[], SystemMembers(g), FieldMembers(g.fields, order));
    FieldsReadBack(g.fields, order, map[]);
  }

  lemma StringsOfDump(g: Gelf, order: seq<string>)
    requires Wellformed(g) && g.timestamp.Finite? && Lists(order, g.fields)
    ensures var d := Members(g, order);
            && ReadVersion(d) == Ok(g.version)
            && Mandatory(d, Spelling(Host)) == Ok(g.host)
            && Mandatory(d, Spelling(ShortMessage)) == Ok(g.shortMessage)
            && ReadFullMessage(d) == Ok(g.fullMessage)
  {
    hide Spelling, Find, Members;
    FoundInDump(g, order, Version);
    FoundInDump(g, order, Host);
    FoundInDump(g, order, ShortMessage);
    FoundInDump(g, order, FullMessage);
    CStringNulFree(g.version);
    CStringNulFree(g.host);
    CStringNulFree(g.shortMessage);
    CStringNulFree(g.fullMessage);
  }

  lemma NumbersOfDump(lib: Library, g: Gelf, order: seq<string>)
    requires Wellformed(g) && g.timestamp.Finite? && Lists(order, g.fields)
    ensures ReadTimestamp(lib, Members(g, order)) == CheckTimestamp(g.timestamp)
    ensures ReadLevel(lib, Members(g, order)) == Ok(g.level)
  {
    hide Spelling, Find, Members;
    FoundInDump(g, order, Timestamp);
    FoundInDump(g, order, Level);
  }

  /** The timestamp is a number, and not before the limit. */
  predicate Recent(t: Number) {
    t.Finite? && t.value >= MIN_TIMESTAMP
  }

  /** Reading what was written gives the record back exactly for records whose timestamp is
      finite and not before the limit. */
  lemma ReadBackIff(lib: Library, g: Gelf, order: seq<string>)
    requires Wellformed(g) && Lists(order, g.fields)
    ensures Read(lib, Dump(g, order)) == Ok(g) <==> Recent(g.timestamp)
  {
    if g.timestamp.Finite? {
      StringsOfDump(g, order);
      NumbersOfDump(lib, g, order);
      FieldsOfDump(g, order);
      hide Members, ReadVersion, Mandatory, ReadFullMessage, ReadTimestamp, ReadLevel, ReadFields, Spelling, Find;
    }
  }

  /** What the sender can look at: the timestamp is there and does not spell an infinite number
      or none, or it is left to the clock and the clock is right. */
  predicate Timely(lib: Library, members: seq<Member>) {
    match Find(members, Spelling(Timestamp))
    case None => lib.now >= MIN_TIMESTAMP
    case Some(JString(s)) => lib.stod(CString(s)).Some? && lib.stod(CString(s)).value.Finite?
    case _ => true
  }

  lemma TimelyIsRecent(lib: Library, members: seq<Member>)
    requires ReadTimestamp(lib, members).Ok?
    ensures Recent(ReadTimestamp(lib, members).value) <==> Timely(lib, members)
  {
    hide Spelling, Find, CString;
  }

  lemma ReadTakesTimestamp(lib: Library, members: seq<Member>)
    requires Read(lib, Object(members)).Ok?
    ensures ReadTimestamp(lib, members) == Ok(Read(lib, Object(members)).value.timestamp)
  {
    hide Spelling, Find, ReadFields, ReadVersion, Mandatory, ReadFullMessage, ReadTimestamp, ReadLevel;
  }

  /** Normalisation is idempotent for exactly the accepted objects whose timestamp, or the
      clock in its place, is in order: reading what was written for them gives the very same
      record, whoever reads it later. */
  lemma NormalisationIdempotentIff(lib: Library, later: Library, members: seq<Member>, order: seq<string>)
    requires Read(lib, Object(members)).Ok? && Lists(order, Read(lib, Object(members)).value.fields)
    ensures Read(later, Dump(Read(lib, Object(members)).value, order)) == Read(lib, Object(members))
       <==> Timely(lib, members)
  {
    var g := Read(lib, Object(members)).value;
    ReadIsWellformed(lib, Object(members));
    ReadTakesTimestamp(lib, members);
    TimelyIsRecent(lib, members);
    hide Read, Dump, Wellformed, ReadTimestamp;
    ReadBackIff(later, g, order);
  }

  /** A smallest record with the given timestamp. */
  function Minimal(timestamp: Json): seq<Member> {
    [Member(Spelling(Version), JString("1.1"))] +
    ([Member(Spelling(Host), JString("h"))] +
     ([Member(Spelling(ShortMessage), JString("m"))] + [Member(Spelling(Timestamp), timestamp)]))
  }

  lemma MinimalFound(timestamp: Json, f: SystemField)
    ensures Find(Minimal(timestamp), Spelling(f)) ==
            match f
            case Version => Some(JString("1.1"))
            case Host => Some(JString("h"))
            case ShortMessage => Some(JString("m"))
            case Timestamp => Some(timestamp)
            case _ => None
  {
    hide Spelling, Find;
    var last := [Member(Spelling(Timestamp), timestamp)];
    var short := [Member(Spelling(ShortMessage), JString("m"))] + last;
    FindOne(Version, JString("1.1"), [Member(Spelling(Host), JString("h"))] + short, f);
    FindOne(Host, JString("h"), short, f);
    FindOne(ShortMessage, JString("m"), last, f);
    FindOne(Timestamp, timestamp, [], f);
    assert last + [] == last;
    FindNothing(Spelling(f));
  }

  lemma MinimalFields(timestamp: Json)
    ensures ReadFields(map[], Minimal(timestamp)) == Ok(map[])
  {
    assert ReadFields(map[], []) == Ok(map[]);
    hide Spelling, SystemNamed, ReadFields;
    var last := [Member(Spelling(Timestamp), timestamp)];
    var short := [Member(Spelling(ShortMessage), JString("m"))] + last;
    OneNamed(Version, JString("1.1"));
    OneNamed(Host, JString("h"));
    OneNamed(ShortMessage, JString("m"));
    OneNamed(Timestamp, timestamp);
    NamedAppend([Member(Spelling(ShortMessage), JString("m"))], last);
    NamedAppend([Member(Spelling(Host), JString("h"))], short);
    NamedAppend([Member(Spelling(Version), JString("1.1"))], [Member(Spelling(Host), JString("h"))] + short);
    SystemSkipped(map[], Minimal(timestamp), []);
    assert Minimal(timestamp) + [] == Minimal(timestamp);
  }

  /** The timestamps "inf" and "nan" are accepted, and the dump of the record is not. */
  lemma NonFiniteIsNotReadBack(lib: Library, later: Library, text: string, t: Number)
    requires text in {"inf", "nan"} && lib.stod(text) == Some(t)
    requires t == if text == "inf" then Infinite(true) else NaN
    ensures var r := Read(lib, Object(Minimal(JString(text))));
            && r == Ok(Gelf("1.1", "h", "m", "", t, 1, map[]))
            && Read(later, Dump(r.value, [])) == Err(ParseError)
  {
    hide Find, Spelling, ReadFields, CString, Minimal;
    MinimalFields(JString(text));
    forall f: SystemField ensures Find(Minimal(JString(text)), Spelling(f)) ==
            match f
            case Version => Some(JString("1.1"))
            case Host => Some(JString("h"))
            case ShortMessage => Some(JString("m"))
            case Timestamp => Some(JString(text))
            case _ => None
    {
      MinimalFound(JString(text), f);
    }
    CStringNulFree("1.1");
    CStringNulFree("h");
    CStringNulFree("m");
    CStringNulFree(text);
  }

  // ---- Exceptions ----

  /** The members that are read before the numbers are in order. */
  predicate StringsRead(members: seq<Member>) {
    && ReadVersion(members).Ok? && Mandatory(members, Spelling(Host)).Ok?
    && Mandatory(members, Spelling(ShortMessage)).Ok? && ReadFullMessage(members).Ok?
  }

  /** The member is a string that begins with no number, or with one that is out of range. */
  predicate NoNumber<N(==)>(members: seq<Member>, f: SystemField, number: string -> Option<N>) {
    match Find(members, Spelling(f))
    case Some(JString(s)) => number(CString(s)) == None
    case _ => false
  }

  /** Which objects are refused with an exception of the standard library, which nothing handles:
      those whose timestamp is a string without a number, or whose level is one, if everything
      that is read before is in order. */
  lemma LibraryErrorIff(lib: Library, members: seq<Member>)
    ensures Read(lib, Object(members)) == Err(LibraryError) <==>
            && StringsRead(members)
            && (NoNumber(members, Timestamp, lib.stod) ||
                (ReadTimestamp(lib, members).Ok? && NoNumber(members, Level, lib.stoi)))
  {
    NeverLibraryError(members);
    TimestampErrorIff(lib, members);
    LevelErrorIff(lib, members);
    FieldsNeverLibraryError(map[], members);
    hide Spelling, Find, ReadVersion, Mandatory, ReadFullMessage, ReadTimestamp, ReadLevel, ReadFields, NoNumber;
  }

  lemma NeverLibraryError(members: seq<Member>)
    ensures ReadVersion(members) != Err(LibraryError) && ReadFullMessage(members) != Err(LibraryError)
    ensures Mandatory(members, Spelling(Host)) != Err(LibraryError)
    ensures Mandatory(members, Spelling(ShortMessage)) != Err(LibraryError)
  {
    hide Find, CString, Spelling;
  }

  lemma TimestampErrorIff(lib: Library, members: seq<Member>)
    ensures ReadTimestamp(lib, members) == Err(LibraryError) <==> NoNumber(members, Timestamp, lib.stod)
  {
    hide Find, CString, Spelling;
  }

  lemma LevelErrorIff(lib: Library, members: seq<Member>)
    ensures ReadLevel(lib, members) == Err(LibraryError) <==> NoNumber(members, Level, lib.stoi)
  {
    hide Find, CString, Spelling;
  }

  lemma {:induction false} FieldsNeverLibraryError(fields: map<string, Value>, members: seq<Member>)
    ensures ReadFields(fields, members) != Err(LibraryError)
    decreases |members|
  {
    if members != [] {
      hide IsSystemField, CString, FieldKey;
      var v := FieldValue(members[0].value);
      var key := FieldKey(members[0].name);
      FieldsNeverLibraryError(fields, members[1..]);
      if v.Ok? {
        FieldsNeverLibraryError(fields[key := v.value], members[1..]);
      }
    }
  }

  /** What the import loop makes of a document. */
  function Import(lib: Library): Document -> Pipeline.Conversion<Gelf> {
    (document: Document) => match Read(lib, document)
                            case Ok(g) => Pipeline.Message(g)
                            case Err(ParseError) => Pipeline.Handled
                            case Err(LibraryError) => Pipeline.Escaping
  }

  /** One record with the timestamp "abc", or any other text without a number, ends the process,
      and nothing of its bulk gets to the main queue, whatever else the bulk holds. */
  lemma BadTimestampEndsTheProcess(lib: Library, text: string, bulk: seq<Document>, i: nat, contents: seq<Gelf>,
                                   max: nat, strategy: MessageQueues.Strategy, drains: seq<nat>)
    requires NulFree(text) && lib.stod(text) == None && i < |bulk| && bulk[i] == Object(Minimal(JString(text)))
    ensures Read(lib, bulk[i]) == Err(LibraryError)
    ensures var (after, ending) := Pipeline.AfterCall(Import(lib), bulk, contents, max, strategy, drains);
            after == contents && ending.Escaped? && ending.at <= i
  {
    MinimalRefused(lib, text);
    Pipeline.FirstEscapeFinds(Import(lib), bulk);
    hide Read, Minimal;
    assert Import(lib)(bulk[i]).Escaping?;
  }

  lemma MinimalRefused(lib: Library, text: string)
    requires NulFree(text) && lib.stod(text) == None
    ensures Read(lib, Object(Minimal(JString(text)))) == Err(LibraryError)
  {
    hide Find, Spelling, CString, Minimal;
    var m := Minimal(JString(text));
    MinimalFound(JString(text), Version);
    MinimalFound(JString(text), Host);
    MinimalFound(JString(text), ShortMessage);
    MinimalFound(JString(text), FullMessage);
    MinimalFound(JString(text), Timestamp);
    CStringNulFree("1.1");
    CStringNulFree("h");
    CStringNulFree("m");
    CStringNulFree(text);
  }

  predicate DistinctNames(members: seq<Member>) {
    forall i, j :: 0 <= i < j < |members| ==> members[i].name != members[j].name
  }

  lemma {:induction false} FieldNames(fields: map<string, Value>, order: seq<string>)
    requires WellformedFields(fields) && (forall i :: 0 <= i < |order| ==> order[i] in fields)
    ensures forall i :: 0 <= i < |order| ==> FieldMembers(fields, order)[i].name == order[i]
  {
    if order != [] {
      CStringNulFree(order[0]);
      FieldNames(fields, order[1..]);
    }
  }

  lemma SystemDistinct(g: Gelf)
    requires g.timestamp.Finite?
    ensures DistinctNames(SystemMembers(g))
  {
    hide Spelling;
    forall f: SystemField, h: SystemField ensures Spelling(f) == Spelling(h) ==> f == h {
      SpellingsDistinct(f, h);
    }
  }

  lemma FieldNotSystemNamed(name: string, key: string)
    requires IsSystemField(name) && key != "" && key[0] == '_'
    ensures name != key
  {
    FieldIsNotSystem(key);
  }

  /** A dump never has two members of the same name. */
  lemma DumpNamesDistinct(lib: Library, document: Document, order: seq<string>)
    requires Read(lib, document).Ok? && Lists(order, Read(lib, document).value.fields)
    ensures var d := Dump(Read(lib, document).value, order); d.Object? ==> DistinctNames(d.members)
  {
    ReadIsWellformed(lib, document);
    var g := Read(lib, document).value;
    if g.timestamp.Finite? {
      hide Read;
      MembersDistinct(g, order);
    }
  }

  lemma MembersDistinct(g: Gelf, order: seq<string>)
    requires Wellformed(g) && g.timestamp.Finite? && Lists(order, g.fields)
    ensures DistinctNames(Members(g, order))
  {
    hide IsSystemField, SystemMembers, FieldMembers;
    var system, own := SystemMembers(g), FieldMembers(g.fields, order);
    FieldNames(g.fields, order);
    SystemMembersNamed(g);
    SystemDistinct(g);
    var all: seq<Member> := system + own;
    forall i, j | 0 <= i < j < |all| ensures all[i].name != all[j].name {
      if i < |system| <= j {
        FieldNotSystemNamed(system[i].name, own[j - |system|].name);
      }
    }
  }
}
