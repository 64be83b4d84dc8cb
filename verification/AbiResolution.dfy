/** Resolution of a contract's events through the cache, a local override or a
    remote lookup. */
module AbiResolution {
  import opened Types
  import opened Abi
  import opened Storage

  // ── JSON ───────────────────────────────────────────────────────────────────

  datatype Json =
    | Null
    | Bool(b: bool)
    | Num(n: int)
    | Str(s: string)
    | Arr(items: seq<Json>)
    | Obj(fields: map<string, Json>)

  /** Indexing a missing field, or anything but an object, gives null. */
  function Field(j: Json, key: string): Json {
    if j.Obj? && key in j.fields then j.fields[key] else Null
  }

  /** Text as the JSON library reads it: an array of entries, or no array. */
  datatype Text = Malformed | Entries(entries: seq<Json>)

  // ── Parsing and serialising event definitions ──────────────────────────────

  function MakeInput(name: Json, ty: Json, indexed: Json, components: Option<seq<EventInput>>): Option<EventInput> {
    if name.Str? && ty.Str? && indexed.Bool? && components.Some? then
      Some(EventInput(name.s, ty.s, indexed.b, components.value))
    else None
  }

  /** The derived deserialiser: an object with the named fields, or the fields as
      an array; `components` may be missing, nothing else may. */
  function ParseInput(j: Json): Option<EventInput> {
    match j
    case Obj(fields) =>
      var components := if "components" in fields then ParseComponents(fields["components"]) else Some([]);
      MakeInput(Field(j, "name"), Field(j, "type"), Field(j, "indexed"), components)
    case Arr(items) =>
      if |items| == 3 then MakeInput(items[0], items[1], items[2], Some([]))
      else if |items| == 4 then MakeInput(items[0], items[1], items[2], ParseComponents(items[3]))
      else None
    case _ => None
  }

  function ParseComponents(j: Json): Option<seq<EventInput>> {
    if j.Arr? then ParseAll(j.items) else None
  }

  /** All must parse. */
  function ParseAll(items: seq<Json>): Option<seq<EventInput>> {
    if items == [] then Some([])
    else
      var first := ParseInput(items[0]);
      var rest := ParseAll(items[1..]);
      if first.Some? && rest.Some? then Some([first.value] + rest.value) else None
  }

  /** Top-level inputs that do not parse are dropped. */
  function ParseInputs(items: seq<Json>): seq<EventInput> {
    if items == [] then []
    else
      var first := ParseInput(items[0]);
      (if first.Some? then [first.value] else []) + ParseInputs(items[1..])
  }

  function ParseEvent(entry: Json): Option<EventAbi> {
    var name, inputs := Field(entry, "name"), Field(entry, "inputs");
    if Field(entry, "type") != Str("event") || !name.Str? then None
    else Some(EventAbi(name.s, if inputs.Arr? then ParseInputs(inputs.items) else []))
  }

  function ParseEventEntries(entries: seq<Json>): seq<EventAbi> {
    if entries == [] then []
    else
      var first := ParseEvent(entries[0]);
      (if first.Some? then [first.value] else []) + ParseEventEntries(entries[1..])
  }

  function SerializeInput(i: EventInput): Json {
    Obj(map["name" := Str(i.name), "type" := Str(i.ty), "indexed" := Bool(i.indexed),
            "components" := Arr(SerializeInputs(i.components))])
  }

  function SerializeInputs(inputs: seq<EventInput>): seq<Json> {
    if inputs == [] then [] else [SerializeInput(inputs[0])] + SerializeInputs(inputs[1..])
  }

  function SerializeEvent(e: EventAbi): Json {
    Obj(map["type" := Str("event"), "name" := Str(e.name), "inputs" := Arr(SerializeInputs(e.inputs))])
  }

  function SerializeEvents(es: seq<EventAbi>): seq<Json> {
    if es == [] then [] else [SerializeEvent(es[0])] + SerializeEvents(es[1..])
  }

  lemma {:induction false} InputRoundTrip(i: EventInput)
    ensures ParseInput(SerializeInput(i)) == Some(i)
    decreases i, 0
  {
    InputsRoundTrip(i.components);
  }

  lemma {:induction false} InputsRoundTrip(inputs: seq<EventInput>)
    ensures ParseAll(SerializeInputs(inputs)) == Some(inputs)
    ensures ParseInputs(SerializeInputs(inputs)) == inputs
    decreases inputs, 1
  {
    if inputs != [] {
      InputRoundTrip(inputs[0]);
      InputsRoundTrip(inputs[1..]);
      var items := SerializeInputs(inputs);
      assert items[0] == SerializeInput(inputs[0]) && items[1..] == SerializeInputs(inputs[1..]);
      assert inputs == [inputs[0]] + inputs[1..];
    }
  }

  lemma EventRoundTrip(e: EventAbi)
    ensures ParseEvent(SerializeEvent(e)) == Some(e)
  {
    hide ParseInputs, SerializeInputs;
    InputsRoundTrip(e.inputs);
  }

  /** Serialising and parsing again is the identity, for components nested to any depth. */
  lemma {:induction false} EventsRoundTrip(es: seq<EventAbi>)
    ensures ParseEventEntries(SerializeEvents(es)) == es
  {
    hide ParseEvent, SerializeEvent;
    if es != [] {
      EventRoundTrip(es[0]);
      EventsRoundTrip(es[1..]);
      var entries := SerializeEvents(es);
      assert entries[0] == SerializeEvent(es[0]) && entries[1..] == SerializeEvents(es[1..]);
      assert es == [es[0]] + es[1..];
    }
  }

  // ── What parsing reads ─────────────────────────────────────────────────────

  lemma ParseAllCons(first: Json, rest: seq<Json>)
    ensures ParseAll([first] + rest)
            == if ParseInput(first).Some? && ParseAll(rest).Some?
               then Some([ParseInput(first).value] + ParseAll(rest).value) else None
  {
    hide ParseInput;
    assert ([first] + rest)[1..] == rest;
  }

  /** All inputs parse, or none is given. */
  lemma {:induction false} ParseAllIff(items: seq<Json>, inputs: seq<EventInput>)
    ensures ParseAll(items) == Some(inputs) <==> |inputs| == |items| && EachParsed(items, inputs)
  {
    hide ParseInput, ParseAll, EachParsed;
    if items == [] {
      NoneParsed(inputs);
    } else {
      assert items == [items[0]] + items[1..];
      ParseAllCons(items[0], items[1..]);
      if inputs != [] {
        assert inputs == [inputs[0]] + inputs[1..];
        ParseAllIff(items[1..], inputs[1..]);
        EachParsedCons(items, inputs);
        if ParseAll(items[1..]).Some? {
          var rest := ParseAll(items[1..]).value;
          assert [inputs[0]] + rest == inputs <==> rest == inputs[1..];
        }
      }
    }
  }

  ghost predicate EachParsed(items: seq<Json>, inputs: seq<EventInput>) {
    forall k | 0 <= k < |items| && k < |inputs| :: ParseInput(items[k]) == Some(inputs[k])
  }

  lemma NoneParsed(inputs: seq<EventInput>)
    ensures ParseAll([]) == Some([]) && EachParsed([], inputs)
  {
  }

  lemma EachParsedCons(items: seq<Json>, inputs: seq<EventInput>)
    requires items != [] && inputs != []
    ensures EachParsed(items, inputs) <==>
            ParseInput(items[0]) == Some(inputs[0]) && EachParsed(items[1..], inputs[1..])
  {
    hide ParseInput;
    if ParseInput(items[0]) == Some(inputs[0]) && EachParsed(items[1..], inputs[1..]) {
      forall k | 0 <= k < |items| && k < |inputs| ensures ParseInput(items[k]) == Some(inputs[k]) {
        if k > 0 {
          assert ParseInput(items[1..][k - 1]) == Some(inputs[1..][k - 1]);
        }
      }
    }
    if EachParsed(items, inputs) {
      assert ParseInput(items[0]) == Some(inputs[0]);
      forall k | 0 <= k < |items| - 1 && k < |inputs| - 1 ensures ParseInput(items[1..][k]) == Some(inputs[1..][k]) {
        assert ParseInput(items[k + 1]) == Some(inputs[k + 1]);
      }
    }
  }

  /** An input given as an object: a string name and type, a flag, and components that
      must all parse, if there are any. */
  lemma InputFields(fields: map<string, Json>, i: EventInput)
    ensures ParseInput(Obj(fields)) == Some(i) <==>
            && "name" in fields && fields["name"] == Str(i.name)
            && "type" in fields && fields["type"] == Str(i.ty)
            && "indexed" in fields && fields["indexed"] == Bool(i.indexed)
            && if "components" !in fields then i.components == []
               else fields["components"].Arr? && |i.components| == |fields["components"].items|
                    && EachParsed(fields["components"].items, i.components)
  {
    hide ParseAll, ParseInput, EachParsed;
    UnfoldInput(fields);
    if "components" in fields && fields["components"].Arr? {
      ParseAllIff(fields["components"].items, i.components);
    }
  }

  /** An input given as an array: name, type, flag, and perhaps components, in this order. */
  lemma InputArray(items: seq<Json>, i: EventInput)
    ensures ParseInput(Arr(items)) == Some(i) <==>
            && 3 <= |items| <= 4 && items[0] == Str(i.name) && items[1] == Str(i.ty) && items[2] == Bool(i.indexed)
            && if |items| == 3 then i.components == []
               else items[3].Arr? && |i.components| == |items[3].items| && EachParsed(items[3].items, i.components)
  {
    hide ParseAll, EachParsed;
    if |items| == 4 && items[3].Arr? {
      ParseAllIff(items[3].items, i.components);
    }
  }

  lemma UnfoldInput(fields: map<string, Json>)
    ensures ParseInput(Obj(fields))
            == MakeInput(Field(Obj(fields), "name"), Field(Obj(fields), "type"), Field(Obj(fields), "indexed"),
                         if "components" in fields then ParseComponents(fields["components"]) else Some([]))
  {
    hide ParseComponents, MakeInput;
  }

  lemma InputsCons(first: Json, rest: seq<Json>)
    ensures ParseInputs([first] + rest)
            == (if ParseInput(first).Some? then [ParseInput(first).value] else []) + ParseInputs(rest)
    ensures ParseInputs([]) == []
  {
    hide ParseInput;
    assert ([first] + rest)[1..] == rest;
  }

  lemma {:induction false} InputsConcat(a: seq<Json>, b: seq<Json>)
    ensures ParseInputs(a + b) == ParseInputs(a) + ParseInputs(b)
  {
    hide ParseInputs, ParseInput;
    if a == [] {
      InputsCons(Null, []);
      assert a + b == b;
    } else {
      var first, rest := a[0], a[1..];
      assert a == [first] + rest;
      assert a + b == [first] + (rest + b);
      InputsConcat(rest, b);
      InputsCons(first, rest + b);
      InputsCons(first, rest);
    }
  }

  /** The inputs of an event are those of its items that parse, in order. */
  lemma InputsDropped(a: seq<Json>, item: Json, b: seq<Json>)
    ensures ParseInputs(a + [item] + b)
            == ParseInputs(a) + (if ParseInput(item).Some? then [ParseInput(item).value] else []) + ParseInputs(b)
  {
    hide ParseInputs, ParseInput;
    InputsConcat(a + [item], b);
    InputsConcat(a, [item]);
    InputsCons(item, []);
    assert [item] + [] == [item];
  }

  /** What one entry contributes. */
  function Contribution(entry: Json): seq<EventAbi> {
    if ParseEvent(entry).Some? then [ParseEvent(entry).value] else []
  }

  lemma EntriesCons(first: Json, rest: seq<Json>)
    ensures ParseEventEntries([first] + rest) == Contribution(first) + ParseEventEntries(rest)
  {
    hide ParseEvent;
    assert ([first] + rest)[1..] == rest;
  }

  lemma OneEntry(entry: Json)
    ensures ParseEventEntries([entry]) == Contribution(entry)
  {
    hide ParseEvent;
    assert ParseEventEntries([entry][1..]) == [];
  }

  lemma NoEntries()
    ensures ParseEventEntries([]) == []
  {
  }

  lemma {:induction false} EntriesConcat(a: seq<Json>, b: seq<Json>)
    ensures ParseEventEntries(a + b) == ParseEventEntries(a) + ParseEventEntries(b)
  {
    hide ParseEventEntries, Contribution;
    if a == [] {
      NoEntries();
      assert a + b == b;
    } else {
      var first, rest := a[0], a[1..];
      assert a == [first] + rest;
      assert a + b == [first] + (rest + b);
      EntriesConcat(rest, b);
      EntriesCons(first, rest + b);
      EntriesCons(first, rest);
    }
  }

  /** An entry contributes an event when its type is "event" and its name a
      string, with the inputs listed, and nothing otherwise. */
  lemma EntryContributes(fields: map<string, Json>)
    ensures ParseEventEntries([Obj(fields)])
            == if "type" in fields && fields["type"] == Str("event") && "name" in fields && fields["name"].Str?
               then [EventAbi(fields["name"].s, if "inputs" in fields && fields["inputs"].Arr?
                                                then ParseInputs(fields["inputs"].items) else [])]
               else []
  {
    hide ParseInputs, ParseEventEntries;
    OneEntry(Obj(fields));
  }

  /** An entry that is not an object, or of any type other than "event", contributes
      nothing, wherever it stands. */
  lemma OtherEntriesIgnored(a: seq<Json>, entry: Json, b: seq<Json>)
    requires entry.Obj? ==> "type" !in entry.fields || entry.fields["type"] != Str("event")
    ensures ParseEventEntries(a + [entry] + b) == ParseEventEntries(a) + ParseEventEntries(b)
  {
    hide ParseEventEntries, ParseInputs;
    EntriesConcat(a + [entry], b);
    EntriesConcat(a, [entry]);
    OneEntry(entry);
    assert ParseEvent(entry) == None;
  }

  // ── Filtering ──────────────────────────────────────────────────────────────

  datatype AbiError =
    | ParseFailed
    | EventNotFound(name: string)
    | AbiRequired

  predicate Wildcard(wanted: seq<string>) {
    wanted == ["*"]
  }

  /** Events by name; of two with one name the later wins. */
  function ByName(all: seq<EventAbi>): map<string, EventAbi> {
    if all == [] then map[]
    else ByName(all[..|all| - 1])[all[|all| - 1].name := all[|all| - 1]]
  }

  function Pick(byName: map<string, EventAbi>, wanted: seq<string>): Result<seq<EventAbi>, AbiError> {
    if wanted == [] then Ok([])
    else if wanted[0] !in byName then Err(EventNotFound(wanted[0]))
    else
      var rest :- Pick(byName, wanted[1..]);
      Ok([byName[wanted[0]]] + rest)
  }

  function Filtered(all: seq<EventAbi>, wanted: seq<string>): Result<seq<EventAbi>, AbiError> {
    if Wildcard(wanted) then Ok(all) else Pick(ByName(all), wanted)
  }

  method FilterEvents(all: seq<EventAbi>, wanted: seq<string>) returns (r: Result<seq<EventAbi>, AbiError>)
    ensures r == Filtered(all, wanted)
  {
    if wanted == ["*"] {
      return Ok(all);
    }
    var byName: map<string, EventAbi> := map[];
    for i := 0 to |all|
      invariant byName == ByName(all[..i])
    {
      assert all[..i + 1][..i] == all[..i];
      byName := byName[all[i].name := all[i]];
    }
    assert all[..|all|] == all;

    var result: seq<EventAbi> := [];
    assert wanted[0..] == wanted;
    assert forall rest: seq<EventAbi> :: [] + rest == rest;
    for i := 0 to |wanted|
      invariant forall j | 0 <= j < i :: wanted[j] in byName
      invariant Pick(byName, wanted) == match Pick(byName, wanted[i..])
                                        case Ok(rest) => Ok(result + rest)
                                        case Err(e) => Err(e)
    {
      assert wanted[i..][1..] == wanted[i + 1..];
      if wanted[i] !in byName {
        return Err(EventNotFound(wanted[i]));
      }
      PickNext(byName, wanted, i, result);
      result := result + [byName[wanted[i]]];
    }
    assert wanted[|wanted|..] == [];
    assert result + [] == result;
    return Ok(result);
  }

  lemma PickNext(byName: map<string, EventAbi>, wanted: seq<string>, i: nat, result: seq<EventAbi>)
    requires i < |wanted| && wanted[i] in byName
    ensures Pick(byName, wanted[i..]) == match Pick(byName, wanted[i + 1..])
                                         case Ok(rest) => Ok([byName[wanted[i]]] + rest)
                                         case Err(e) => Err(e)
    ensures forall rest :: result + ([byName[wanted[i]]] + rest) == result + [byName[wanted[i]]] + rest
  {
    assert wanted[i..][1..] == wanted[i + 1..];
  }

  /** `e` is the event at `i`, and no later one has its name. */
  ghost predicate LastNamed(all: seq<EventAbi>, e: EventAbi, i: nat) {
    i < |all| && all[i] == e && forall j | i < j < |all| :: all[j].name != e.name
  }

  lemma LastNamedSnoc(front: seq<EventAbi>, last: EventAbi)
    ensures LastNamed(front + [last], last, |front|)
    ensures forall e, i: nat :: LastNamed(front, e, i) && last.name != e.name ==> LastNamed(front + [last], e, i)
  {
  }

  lemma {:induction false} ByNameIsLast(all: seq<EventAbi>, name: string)
    ensures name in ByName(all) <==> exists e | e in all :: e.name == name
    ensures name in ByName(all) ==>
            ByName(all)[name].name == name && exists i: nat :: LastNamed(all, ByName(all)[name], i)
  {
    hide LastNamed;
    if all != [] {
      var front, last := all[..|all| - 1], all[|all| - 1];
      assert all == front + [last];
      ByNameIsLast(front, name);
      LastNamedSnoc(front, last);
      assert last in all;
      if last.name != name && name in ByName(front) {
        var i: nat :| LastNamed(front, ByName(front)[name], i);
        assert LastNamed(all, ByName(all)[name], i);
      }
    }
  }

  /** Selected events come in the wanted order, each the last of its name; the
      error names the first wanted event that does not exist. */
  lemma {:induction false} PickMeaning(byName: map<string, EventAbi>, wanted: seq<string>)
    ensures match Pick(byName, wanted)
            case Ok(es) =>
              |es| == |wanted| && forall i | 0 <= i < |es| :: wanted[i] in byName && es[i] == byName[wanted[i]]
            case Err(e) => exists i :: 0 <= i < |wanted| && e == EventNotFound(wanted[i]) && wanted[i] !in byName
                                       && forall j | 0 <= j < i :: wanted[j] in byName
  {
    if wanted != [] && wanted[0] in byName {
      PickMeaning(byName, wanted[1..]);
      match Pick(byName, wanted[1..])
      case Ok(_) =>
      case Err(e) =>
        var i :| 0 <= i < |wanted| - 1 && e == EventNotFound(wanted[1..][i]) && wanted[1..][i] !in byName
                 && forall j | 0 <= j < i :: wanted[1..][j] in byName;
        assert wanted[i + 1] == wanted[1..][i];
        assert forall j | 1 <= j < i + 1 :: wanted[j] == wanted[1..][j - 1];
    }
  }

  /** All events when "*" is asked for; otherwise, in the order asked for, the last event
      of each name, or the first name that no event has. */
  lemma FilterMeaning(all: seq<EventAbi>, wanted: seq<string>)
    ensures match Filtered(all, wanted)
            case Ok(es) =>
              if wanted == ["*"] then es == all
              else |es| == |wanted|
                   && forall i | 0 <= i < |es| :: es[i].name == wanted[i] && exists k: nat :: LastNamed(all, es[i], k)
            case Err(e) =>
              wanted != ["*"]
              && exists i :: 0 <= i < |wanted| && e == EventNotFound(wanted[i]) && NoneNamed(all, wanted[i])
                             && forall j | 0 <= j < i :: !NoneNamed(all, wanted[j])
  {
    hide LastNamed, ByName, Pick;
    var byName := ByName(all);
    forall name ensures name in byName <==> !NoneNamed(all, name) {
      ByNameIsLast(all, name);
    }
    PickMeaning(byName, wanted);
    match Filtered(all, wanted)
    case Ok(es) =>
      if wanted != ["*"] {
        forall i | 0 <= i < |es| ensures es[i].name == wanted[i] && exists k: nat :: LastNamed(all, es[i], k) {
          ByNameIsLast(all, wanted[i]);
        }
      }
    case Err(_) =>
  }

  ghost predicate NoneNamed(all: seq<EventAbi>, name: string) {
    forall e | e in all :: e.name != name
  }

  // ── Resolution ─────────────────────────────────────────────────────────────

  datatype ContractConfig = ContractConfig(
    address: Address,
    events: seq<string>,
    abiOverride: Option<string>,
    implAddress: Option<Address>)

  /** The outside world of one resolution: the cache may fail to load, override
      files may be unreadable, and the fetcher may be absent or fail. */
  datatype Outside = Outside(
    loadFails: bool,
    files: string -> Option<Text>,
    fetcher: Option<Address -> Option<Text>>,
    save: Commit)

  type Cache = map<Address, Text>

  function Cached(cache: Cache, cfg: ContractConfig, o: Outside): Option<Text> {
    if !o.loadFails && cfg.address in cache then Some(cache[cfg.address]) else None
  }

  /** Events of a usable override file. */
  function OverrideEvents(cfg: ContractConfig, o: Outside): Option<seq<EventAbi>> {
    if cfg.abiOverride.Some? && o.files(cfg.abiOverride.value).Some?
       && o.files(cfg.abiOverride.value).value.Entries? then
      Some(ParseEventEntries(o.files(cfg.abiOverride.value).value.entries))
    else None
  }

  function Fetched(cfg: ContractConfig, o: Outside): Option<Text> {
    if o.fetcher.Some? then
      o.fetcher.value(if cfg.implAddress.Some? then cfg.implAddress.value else cfg.address)
    else None
  }

  function Saved(cache: Cache, cfg: ContractConfig, o: Outside, es: seq<EventAbi>): Cache {
    if o.save.RolledBack? then cache else cache[cfg.address := Entries(SerializeEvents(es))]
  }

  /** Resolution past the cache. */
  function ResolveFresh(cache: Cache, cfg: ContractConfig, o: Outside): (Result<seq<EventAbi>, AbiError>, Cache) {
    var fromOverride := OverrideEvents(cfg, o);
    if fromOverride.Some? then
      (Filtered(fromOverride.value, cfg.events), Saved(cache, cfg, o, fromOverride.value))
    else
      match Fetched(cfg, o)
      case None => (Err(AbiRequired), cache)
      case Some(Malformed) => (Err(ParseFailed), cache)
      case Some(Entries(entries)) =>
        var es := ParseEventEntries(entries);
        (Filtered(es, cfg.events), Saved(cache, cfg, o, es))
  }

  function Resolve(cache: Cache, cfg: ContractConfig, o: Outside): (Result<seq<EventAbi>, AbiError>, Cache) {
    match Cached(cache, cfg, o)
    case None => ResolveFresh(cache, cfg, o)
    case Some(Malformed) => (Err(ParseFailed), cache)
    case Some(Entries(entries)) =>
      var es := ParseEventEntries(entries);
      if es != [] || Wildcard(cfg.events) then (Filtered(es, cfg.events), cache)
      else ResolveFresh(cache, cfg, o)
  }

  class AbiStore {
    var texts: Cache

    constructor ()
      ensures texts == map[]
    {
      texts := map[];
    }

    method Save(address: Address, text: Text, commit: Commit)
      modifies this
      ensures texts == if commit.RolledBack? then old(texts) else old(texts)[address := text]
    {
      if !commit.RolledBack? {
        texts := texts[address := text];
      }
    }
  }

  method ResolveEvents(store: AbiStore, cfg: ContractConfig, o: Outside) returns (r: Result<seq<EventAbi>, AbiError>)
    modifies store
    ensures (r, store.texts) == Resolve(old(store.texts), cfg, o)
  {
    hide ParseEventEntries, SerializeEvents, Filtered;
    if !o.loadFails && cfg.address in store.texts {
      var cached := store.texts[cfg.address];
      if cached.Malformed? {
        return Err(ParseFailed);
      }
      var all := ParseEventEntries(cached.entries);
      if all != [] || cfg.events == ["*"] {
        r := FilterEvents(all, cfg.events);
        return;
      }
    }

    if cfg.abiOverride.Some? {
      var content := o.files(cfg.abiOverride.value);
      if content.Some? && content.value.Entries? {
        var all := ParseEventEntries(content.value.entries);
        store.Save(cfg.address, Entries(SerializeEvents(all)), o.save);
        r := FilterEvents(all, cfg.events);
        return;
      }
    }

    var fetchAddress := if cfg.implAddress.Some? then cfg.implAddress.value else cfg.address;
    if o.fetcher.Some? {
      var fetched := o.fetcher.value(fetchAddress);
      if fetched.Some? {
        if fetched.value.Malformed? {
          return Err(ParseFailed);
        }
        var all := ParseEventEntries(fetched.value.entries);
        store.Save(cfg.address, Entries(SerializeEvents(all)), o.save);
        r := FilterEvents(all, cfg.events);
        return;
      }
    }
    return Err(AbiRequired);
  }

  // ── What decides an answer ─────────────────────────────────────────────────

  /** The cache cannot be read, has no entry for the contract, or has one without
      events while named events are wanted. */
  ghost predicate NothingCached(cache: Cache, cfg: ContractConfig, o: Outside) {
    || o.loadFails || cfg.address !in cache
    || (cache[cfg.address].Entries? && ParseEventEntries(cache[cfg.address].entries) == [] && cfg.events != ["*"])
  }

  /** The answer and the cache when this list of entries was found outside: the events
      are selected from it, and saved under the contract's own address. */
  ghost predicate AnsweredWith(cache: Cache, cfg: ContractConfig, o: Outside, entries: seq<Json>) {
    var es, (answer, after) := ParseEventEntries(entries), Resolve(cache, cfg, o);
    && answer == Filtered(es, cfg.events)
    && (o.save.RolledBack? ==> after == cache)
    && (!o.save.RolledBack? ==>
          && after.Keys == cache.Keys + {cfg.address}
          && after[cfg.address].Entries? && ParseEventEntries(after[cfg.address].entries) == es
          && forall a | a in cache && a != cfg.address :: after[a] == cache[a])
  }

  /** What is cached decides: neither file nor fetcher matters, and nothing is saved. */
  lemma CacheDecides(cache: Cache, cfg: ContractConfig, o: Outside)
    requires !NothingCached(cache, cfg, o)
    ensures Resolve(cache, cfg, o)
            == (match cache[cfg.address]
                case Malformed => Err(ParseFailed)
                case Entries(entries) => Filtered(ParseEventEntries(entries), cfg.events), cache)
  {
    hide ParseEventEntries, Filtered;
  }

  /** Past the cache, an override that parses decides, whatever the fetcher does. */
  lemma OverrideDecides(cache: Cache, cfg: ContractConfig, o: Outside, path: string, entries: seq<Json>)
    requires NothingCached(cache, cfg, o)
    requires cfg.abiOverride == Some(path) && o.files(path) == Some(Entries(entries))
    ensures AnsweredWith(cache, cfg, o, entries)
  {
    hide ParseEventEntries, SerializeEvents, Filtered;
    EventsRoundTrip(ParseEventEntries(entries));
  }

  /** Without such an override, what the fetcher says decides: about the implementation
      address when one is configured, about the contract's own address otherwise. */
  lemma FetcherDecides(cache: Cache, cfg: ContractConfig, o: Outside, fetch: Address -> Option<Text>)
    requires NothingCached(cache, cfg, o) && o.fetcher == Some(fetch)
    requires cfg.abiOverride.Some? ==> o.files(cfg.abiOverride.value) in {None, Some(Malformed)}
    ensures match fetch(match cfg.implAddress case Some(impl) => impl case None => cfg.address)
            case None => Resolve(cache, cfg, o) == (Err(AbiRequired), cache)
            case Some(Malformed) => Resolve(cache, cfg, o) == (Err(ParseFailed), cache)
            case Some(Entries(entries)) => AnsweredWith(cache, cfg, o, entries)
  {
    hide ParseEventEntries, SerializeEvents, Filtered;
    match fetch(match cfg.implAddress case Some(impl) => impl case None => cfg.address)
    case Some(Entries(entries)) => EventsRoundTrip(ParseEventEntries(entries));
    case _ =>
  }

  /** With neither, the contract's definitions are asked for. */
  lemma NothingDecides(cache: Cache, cfg: ContractConfig, o: Outside)
    requires NothingCached(cache, cfg, o) && o.fetcher.None?
    requires cfg.abiOverride.Some? ==> o.files(cfg.abiOverride.value) in {None, Some(Malformed)}
    ensures Resolve(cache, cfg, o) == (Err(AbiRequired), cache)
  {
    hide ParseEventEntries;
  }

  /** Answer and saved entry depend on the fetcher at one address only: a proxy's
      implementation, and never the proxy itself. */
  lemma OneAddressMatters(cache: Cache, cfg: ContractConfig, o: Outside, fetch: Address -> Option<Text>,
                          fetch': Address -> Option<Text>)
    requires cfg.implAddress.Some? ==> fetch(cfg.implAddress.value) == fetch'(cfg.implAddress.value)
    requires cfg.implAddress.None? ==> fetch(cfg.address) == fetch'(cfg.address)
    ensures Resolve(cache, cfg, o.(fetcher := Some(fetch))) == Resolve(cache, cfg, o.(fetcher := Some(fetch')))
  {
    hide ParseEventEntries, SerializeEvents, Filtered;
  }

  // ── The cache answers later resolutions ────────────────────────────────────

  /** The events a resolution past the cache would find and save. */
  function FreshEvents(cfg: ContractConfig, o: Outside): Option<seq<EventAbi>> {
    if OverrideEvents(cfg, o).Some? then OverrideEvents(cfg, o)
    else match Fetched(cfg, o)
         case Some(Entries(entries)) => Some(ParseEventEntries(entries))
         case _ => None
  }

  /** The cache was not used: nothing loaded, or nothing usable in it. */
  predicate PastCache(cache: Cache, cfg: ContractConfig, o: Outside) {
    match Cached(cache, cfg, o)
    case None => true
    case Some(Malformed) => false
    case Some(Entries(entries)) => ParseEventEntries(entries) == [] && !Wildcard(cfg.events)
  }

  lemma FreshResolution(cache: Cache, cfg: ContractConfig, o: Outside)
    requires PastCache(cache, cfg, o) && FreshEvents(cfg, o).Some? && !o.save.RolledBack?
    ensures var es := FreshEvents(cfg, o).value;
            Resolve(cache, cfg, o) == (Filtered(es, cfg.events), cache[cfg.address := Entries(SerializeEvents(es))])
  {
    hide ParseEventEntries, SerializeEvents, Filtered;
  }

  /** A resolution of some contract, with what the outside world does during it. */
  datatype Request = Request(cfg: ContractConfig, outside: Outside)

  function CacheAfter(cache: Cache, rs: seq<Request>): Cache {
    if rs == [] then cache
    else
      var last := rs[|rs| - 1];
      Resolve(CacheAfter(cache, rs[..|rs| - 1]), last.cfg, last.outside).1
  }

  predicate SameQuestion(a: ContractConfig, b: ContractConfig) {
    a.address == b.address && a.events == b.events
  }

  predicate Loads(rs: seq<Request>) {
    forall i | 0 <= i < |rs| :: !rs[i].outside.loadFails
  }

  /** No other names of the same contract are asked for. */
  predicate OneQuestion(cfg: ContractConfig, rs: seq<Request>) {
    forall i | 0 <= i < |rs| && rs[i].cfg.address == cfg.address :: SameQuestion(cfg, rs[i].cfg)
  }

  /** The later question is answered `answer`, and the cache left alone, whatever
      its file and fetcher do. */
  ghost predicate AnswersFromCache(cache: Cache, cfg: ContractConfig, answer: Result<seq<EventAbi>, AbiError>) {
    forall later: Request | SameQuestion(cfg, later.cfg) && !later.outside.loadFails ::
      Resolve(cache, later.cfg, later.outside) == (answer, cache)
  }

  /** A cache entry that every resolution of its contract can use. */
  predicate Settled(cache: Cache, cfg: ContractConfig, es: seq<EventAbi>) {
    cfg.address in cache && cache[cfg.address] == Entries(SerializeEvents(es))
  }

  lemma SettledAnswers(cache: Cache, cfg: ContractConfig, es: seq<EventAbi>)
    requires Settled(cache, cfg, es) && (es != [] || Wildcard(cfg.events))
    ensures AnswersFromCache(cache, cfg, Filtered(es, cfg.events))
  {
    hide ParseEventEntries, SerializeEvents, Filtered, ResolveFresh;
    EventsRoundTrip(es);
  }

  lemma OthersUntouched(cache: Cache, r: Request, address: Address)
    requires r.cfg.address != address && address in cache
    ensures var after := Resolve(cache, r.cfg, r.outside).1; address in after && after[address] == cache[address]
  {
    hide ParseEventEntries, SerializeEvents, Filtered;
  }

  lemma {:induction false} StaysSettled(cache: Cache, cfg: ContractConfig, es: seq<EventAbi>, rs: seq<Request>)
    requires Settled(cache, cfg, es) && Loads(rs)
    requires es != [] || (Wildcard(cfg.events) && OneQuestion(cfg, rs))
    ensures Settled(CacheAfter(cache, rs), cfg, es)
  {
    hide ParseEventEntries, SerializeEvents, Filtered, Resolve;
    if rs != [] {
      var front, last := rs[..|rs| - 1], rs[|rs| - 1];
      StaysSettled(cache, cfg, es, front);
      if last.cfg.address == cfg.address {
        SettledAnswers(CacheAfter(cache, front), last.cfg, es);
        assert SameQuestion(last.cfg, last.cfg);
      } else {
        OthersUntouched(CacheAfter(cache, front), last, cfg.address);
      }
    }
  }

  /** With an empty definition list and named events wanted, the next resolution
      looks outside again. */
  lemma EmptyIsLookedUpAgain(cache: Cache, cfg: ContractConfig, answer: Result<seq<EventAbi>, AbiError>)
    requires Settled(cache, cfg, []) && !Wildcard(cfg.events) && answer != Err(AbiRequired)
    ensures !AnswersFromCache(cache, cfg, answer)
  {
    hide SerializeEvents, Filtered;
    EventsRoundTrip([]);
    var nothing := Outside(false, _ => None, None, Applied);
    assert Resolve(cache, cfg, nothing).0 == Err(AbiRequired);
    var later := Request(cfg, nothing);
    assert SameQuestion(cfg, later.cfg) && Resolve(cache, later.cfg, later.outside) != (answer, cache);
  }

  /** After a resolution found events and saved them, every later resolution of the
      contract with the same wanted names, by any configuration and after any
      resolutions of other contracts, gives the same answer and leaves the cache
      alone, whatever files and fetcher then do: it uses neither. This holds exactly
      when events were found or all were asked for; an empty list is looked up again. */
  lemma CacheAnswersLater(cache: Cache, cfg: ContractConfig, o: Outside)
    requires PastCache(cache, cfg, o) && FreshEvents(cfg, o).Some? && !o.save.RolledBack?
    ensures (forall between: seq<Request> :: Loads(between) && OneQuestion(cfg, between) ==>
               AnswersFromCache(CacheAfter(Resolve(cache, cfg, o).1, between), cfg, Resolve(cache, cfg, o).0))
            <==> FreshEvents(cfg, o).value != [] || Wildcard(cfg.events)
  {
    hide SerializeEvents, Filtered, FreshEvents, Resolve, AnswersFromCache, PastCache;
    var es := FreshEvents(cfg, o).value;
    FreshResolution(cache, cfg, o);
    var (answer, saved) := Resolve(cache, cfg, o);
    if es != [] || Wildcard(cfg.events) {
      forall between: seq<Request> | Loads(between) && OneQuestion(cfg, between)
        ensures AnswersFromCache(CacheAfter(saved, between), cfg, answer)
      {
        StaysSettled(saved, cfg, es, between);
        SettledAnswers(CacheAfter(saved, between), cfg, es);
      }
    } else {
      FilterNeverRequires(es, cfg.events);
      EmptyIsLookedUpAgain(saved, cfg, answer);
      assert Loads([]) && OneQuestion(cfg, []) && CacheAfter(saved, []) == saved;
    }
  }

  /** Asking for a named event of a contract without events replaces its definitions. */
  function NamedRequest(cfg: ContractConfig): Request {
    var event := SerializeEvent(EventAbi("Late", []));
    Request(cfg.(events := ["Late"]), Outside(false, _ => None, Some(_ => Some(Entries([event]))), Applied))
  }

  lemma NamedRequestReplaces(cache: Cache, cfg: ContractConfig)
    requires Settled(cache, cfg, [])
    ensures CacheAfter(cache, [NamedRequest(cfg)])
            == cache[cfg.address := Entries(SerializeEvents([EventAbi("Late", [])]))]
  {
    hide SerializeEvent, Filtered;
    var r, es := NamedRequest(cfg), [EventAbi("Late", [])];
    EventsRoundTrip([]);
    EventsRoundTrip(es);
    assert SerializeEvents(es) == [SerializeEvent(es[0])] by { assert SerializeEvents(es[1..]) == []; }
    FreshNamed(cache, cfg, es);
    assert [r][..0] == [];
    assert CacheAfter(cache, []) == cache;
  }

  lemma FreshNamed(cache: Cache, cfg: ContractConfig, es: seq<EventAbi>)
    requires Settled(cache, cfg, []) && es == [EventAbi("Late", [])]
    requires ParseEventEntries(SerializeEvents([])) == [] && ParseEventEntries([SerializeEvent(es[0])]) == es
    ensures var r := NamedRequest(cfg);
            Resolve(cache, r.cfg, r.outside).1 == cache[cfg.address := Entries(SerializeEvents(es))]
  {
    hide SerializeEvent, SerializeEvents, ParseEventEntries, Filtered;
    var r := NamedRequest(cfg);
    assert PastCache(cache, r.cfg, r.outside);
    FreshResolution(cache, r.cfg, r.outside);
  }

  /** Over all sequences of resolutions in between, of any contracts and any names,
      the answer lasts exactly when events were found: a contract whose empty list
      answered for all events is looked up again as soon as one is named. */
  lemma CacheAnswersAlwaysIff(cache: Cache, cfg: ContractConfig, o: Outside)
    requires PastCache(cache, cfg, o) && FreshEvents(cfg, o).Some? && !o.save.RolledBack?
    ensures (forall between: seq<Request> :: Loads(between) ==>
               AnswersFromCache(CacheAfter(Resolve(cache, cfg, o).1, between), cfg, Resolve(cache, cfg, o).0))
            <==> FreshEvents(cfg, o).value != []
  {
    hide SerializeEvents, Filtered, FreshEvents, Resolve, AnswersFromCache, PastCache;
    var es := FreshEvents(cfg, o).value;
    FreshResolution(cache, cfg, o);
    var (answer, saved) := Resolve(cache, cfg, o);
    if es != [] {
      forall between: seq<Request> | Loads(between)
        ensures AnswersFromCache(CacheAfter(saved, between), cfg, answer)
      {
        StaysSettled(saved, cfg, es, between);
        SettledAnswers(CacheAfter(saved, between), cfg, es);
      }
    } else if Wildcard(cfg.events) {
      var between := [NamedRequest(cfg)];
      NamedRequestReplaces(saved, cfg);
      WildcardTakesAll(es, cfg.events);
      LateAnswer(CacheAfter(saved, between), cfg);
      assert Loads(between);
    } else {
      FilterNeverRequires(es, cfg.events);
      EmptyIsLookedUpAgain(saved, cfg, answer);
      assert Loads([]) && CacheAfter(saved, []) == saved;
    }
  }

  lemma WildcardTakesAll(es: seq<EventAbi>, wanted: seq<string>)
    requires Wildcard(wanted)
    ensures Filtered(es, wanted) == Ok(es)
  {
  }

  lemma LateAnswer(cache: Cache, cfg: ContractConfig)
    requires Settled(cache, cfg, [EventAbi("Late", [])]) && Wildcard(cfg.events)
    ensures !AnswersFromCache(cache, cfg, Ok([]))
  {
    hide ParseEventEntries, SerializeEvents, ResolveFresh;
    var es := [EventAbi("Late", [])];
    EventsRoundTrip(es);
    var later := Request(cfg, Outside(false, _ => None, None, Applied));
    assert SameQuestion(cfg, later.cfg) && Resolve(cache, later.cfg, later.outside).0 == Ok(es);
  }

  lemma FilterNeverRequires(es: seq<EventAbi>, wanted: seq<string>)
    ensures Filtered(es, wanted) != Err(AbiRequired)
  {
    PickMeaning(ByName(es), wanted);
  }
}
