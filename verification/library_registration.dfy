/**
 * Registering libraries with a discovery service: the registration record of each library with
 * the service being edited, whether the service's protocol supports registration, the stage
 * chosen for each library, and the status text and buttons each library shows.
 */
module LibraryRegistration {
  import opened Options
  import opened Seqs

  /** A JSON property that may be missing (`undefined`), `null`, or a string. */
  datatype Nullable = Undef | Null | Val(s: string)

  /** A library of the installation; `short_name` is optional in the data. */
  datatype Library = Library(shortName: Option<string>, name: Option<string>)

  /** A library's registration record with one service. */
  datatype LibraryInfo = LibraryInfo(shortName: Option<string>, status: Nullable, stage: Nullable)

  /** A service's registrations. */
  datatype ServiceInfo = ServiceInfo(id: Option<string>, libraries: seq<LibraryInfo>)

  /** A protocol the server offers; `supports_registration` may be missing. */
  datatype Protocol = Protocol(name: string, supportsRegistration: Option<bool>)

  /** The data the form is given. */
  datatype RegistrationData = RegistrationData(
    protocols: Option<seq<Protocol>>,
    allLibraries: Option<seq<Library>>,
    libraryRegistrations: Option<seq<ServiceInfo>>)

  /** The service being edited, by id. */
  datatype Service = Service(id: Option<string>)

  /** The component state: the stage chosen per library key, and the service's protocol. */
  datatype RegState = RegState(stages: map<string, string>, protocol: Option<string>)

  /** A registration property `getLibraryProp` reads. */
  datatype Prop = Status | Stage

  /** What a library's registration block shows for its status. */
  datatype StatusBlock = Registered | Failed | NotRegistered | NoStatus

  // ----- getLibraryInfo -----

  function ServiceId(item: Option<Service>): Option<string> {
    if item.Some? then item.value.id else None
  }

  function Registrations(data: Option<RegistrationData>): seq<ServiceInfo> {
    if data.Some? && data.value.libraryRegistrations.Some? then data.value.libraryRegistrations.value else []
  }

  function NamedLike(library: Library): LibraryInfo -> bool {
    (info: LibraryInfo) => info.shortName == library.shortName
  }

  /** The reference list of candidate records: the library's records in every service with the
      edited service's id, in order. */
  function Candidates(services: seq<ServiceInfo>, serviceId: Option<string>, library: Library): (r: seq<LibraryInfo>)
    ensures forall i :: 0 <= i < |r| ==> r[i].shortName == library.shortName
  {
    if |services| == 0 then []
    else
      (if services[0].id == serviceId then Filter(NamedLike(library), services[0].libraries) else [])
      + Candidates(services[1..], serviceId, library)
  }

  /** `getLibraryInfo(library)`: the first candidate record, or `null` (`None`). */
  function GetLibraryInfo(item: Option<Service>, data: Option<RegistrationData>, library: Library): (r: Option<LibraryInfo>)
    ensures r.Some? ==> r.value.shortName == library.shortName
    ensures r.None? <==> Candidates(Registrations(data), ServiceId(item), library) == []
  {
    var c := Candidates(Registrations(data), ServiceId(item), library);
    if |c| == 0 then None else Some(c[0])
  }

  lemma {:induction false} CandidatesAppend(a: seq<ServiceInfo>, b: seq<ServiceInfo>, serviceId: Option<string>, library: Library)
    ensures Candidates(a + b, serviceId, library) == Candidates(a, serviceId, library) + Candidates(b, serviceId, library)
  {
    if |a| == 0 {
      assert a + b == b;
    } else {
      assert (a + b)[1..] == a[1..] + b;
      CandidatesAppend(a[1..], b, serviceId, library);
    }
  }

  lemma CandidatesOfOne(s: ServiceInfo, serviceId: Option<string>, library: Library)
    ensures Candidates([s], serviceId, library) == if s.id == serviceId then Filter(NamedLike(library), s.libraries) else []
  {
    assert [s][1..] == [];
  }

  /** The first record of `libraries` for the library, if any. */
  function FirstNamedLike(libraries: seq<LibraryInfo>, library: Library): Option<LibraryInfo> {
    var f := Filter(NamedLike(library), libraries);
    if |f| == 0 then None else Some(f[0])
  }

  /** The inner loop of `getLibraryInfo` over one service's records, stopping at the first record
      for the library. */
  method FindInService(libraries: seq<LibraryInfo>, library: Library) returns (r: Option<LibraryInfo>)
    ensures r == FirstNamedLike(libraries, library)
  {
    var j := 0;
    while j < |libraries|
      invariant 0 <= j <= |libraries|
      invariant Filter(NamedLike(library), libraries[..j]) == []
    {
      assert Filter(NamedLike(library), libraries[..j + 1])
          == if libraries[j].shortName == library.shortName then [libraries[j]] else [] by {
        FilterStep(NamedLike(library), libraries, j);
      }
      if libraries[j].shortName == library.shortName {
        assert FirstNamedLike(libraries, library) == Some(libraries[j]) by {
          FilterFirst(NamedLike(library), libraries, j);
        }
        return Some(libraries[j]);
      }
      j := j + 1;
    }
    assert libraries[..j] == libraries;
    r := None;
  }

  /** The nested loops of `getLibraryInfo`, returning at the first record found, compute
      `GetLibraryInfo`. */
  method FindLibraryInfo(item: Option<Service>, data: Option<RegistrationData>, library: Library) returns (r: Option<LibraryInfo>)
    ensures r == GetLibraryInfo(item, data, library)
  {
    var serviceId := ServiceId(item);
    var services := Registrations(data);
    var i := 0;
    while i < |services|
      invariant 0 <= i <= |services|
      invariant Candidates(services[..i], serviceId, library) == []
    {
      assert Candidates(services[..i + 1], serviceId, library)
          == if services[i].id == serviceId then Filter(NamedLike(library), services[i].libraries) else [] by {
        assert services[..i + 1] == services[..i] + [services[i]];
        CandidatesAppend(services[..i], [services[i]], serviceId, library);
        CandidatesOfOne(services[i], serviceId, library);
      }
      if services[i].id == serviceId {
        var found := FindInService(services[i].libraries, library);
        if found.Some? {
          assert GetLibraryInfo(item, data, library) == found by {
            CandidatesAt(services, i, serviceId, library);
          }
          return found;
        }
      }
      i := i + 1;
    }
    assert services[..i] == services;
    r := None;
  }

  /** When the services before `i` hold no candidate and service `i` does, the first candidate is
      its first record for the library. */
  lemma CandidatesAt(services: seq<ServiceInfo>, i: nat, serviceId: Option<string>, library: Library)
    requires i < |services|
    requires services[i].id == serviceId
    requires Candidates(services[..i], serviceId, library) == []
    requires FirstNamedLike(services[i].libraries, library).Some?
    ensures |Candidates(services, serviceId, library)| > 0
    ensures Some(Candidates(services, serviceId, library)[0]) == FirstNamedLike(services[i].libraries, library)
  {
    var s := services[i];
    assert services == services[..i] + ([s] + services[i + 1..]);
    CandidatesAppend(services[..i], [s] + services[i + 1..], serviceId, library);
    CandidatesAppend([s], services[i + 1..], serviceId, library);
    CandidatesOfOne(s, serviceId, library);
  }

  /** `getLibraryProp(library, prop)`: `null` without a record, else the record's property. */
  function GetLibraryProp(item: Option<Service>, data: Option<RegistrationData>, library: Library, prop: Prop): (v: Nullable)
    ensures GetLibraryInfo(item, data, library).None? ==> v == Null
    ensures GetLibraryInfo(item, data, library).Some? ==>
      v == (match prop case Status => GetLibraryInfo(item, data, library).value.status
                       case Stage => GetLibraryInfo(item, data, library).value.stage)
  {
    match GetLibraryInfo(item, data, library)
    case None => Null
    case Some(info) => match prop case Status => info.status case Stage => info.stage
  }

  // ----- protocolSupportsRegistration -----

  /** The position of the first protocol with the given name; `|protocols|` when there is none. */
  function FirstIndex(protocols: seq<Protocol>, name: string): (r: nat)
    ensures r <= |protocols|
    ensures forall k :: 0 <= k < r ==> protocols[k].name != name
    ensures r < |protocols| ==> protocols[r].name == name
  {
    if |protocols| == 0 then 0
    else if protocols[0].name == name then 0
    else 1 + FirstIndex(protocols[1..], name)
  }

  /** A protocol is chosen: the state's protocol is a non-empty string. */
  predicate ProtocolChosen(st: RegState) {
    st.protocol.Some? && st.protocol.value != ""
  }

  /** `protocolSupportsRegistration()`: with a protocol chosen and a protocol list, the flag of
      the first protocol of that name, read as a boolean (a missing flag is false); without a
      protocol of that name, false. It reads `data.protocols` only once a protocol is chosen, so
      with a protocol chosen and no data it throws (`None`); with no protocol chosen it is false
      whatever the data. */
  function ProtocolSupportsRegistration(st: RegState, data: Option<RegistrationData>): (b: Option<bool>)
    ensures b.None? <==> ProtocolChosen(st) && data.None?
    ensures !ProtocolChosen(st) ==> b == Some(false)
    ensures b == Some(true) <==> (ProtocolChosen(st) && data.Some? && data.value.protocols.Some?
      && exists i :: 0 <= i < |data.value.protocols.value| && data.value.protocols.value[i].name == st.protocol.value
           && data.value.protocols.value[i].supportsRegistration == Some(true)
           && (forall k :: 0 <= k < i ==> data.value.protocols.value[k].name != st.protocol.value))
  {
    if !ProtocolChosen(st) then Some(false)
    else if data.None? then None
    else if data.value.protocols.None? then Some(false)
    else
      var ps := data.value.protocols.value;
      var i := FirstIndex(ps, st.protocol.value);
      Some(i < |ps| && ps[i].supportsRegistration == Some(true))
  }

  // ----- Stages and the per-library block -----

  /** The key a library's chosen stage is stored under: `String(short_name)`. */
  function StageKey(library: Library): string {
    library.shortName.GetOr("undefined")
  }

  /** The initial state: no stage chosen, the protocol of the props. */
  function Init(protocol: Option<string>): (st: RegState)
    ensures st.stages == map[] && st.protocol == protocol
  {
    RegState(map[], protocol)
  }

  /** The stage the register button sends: the one chosen for the library, `"testing"` when none
      (or an empty one) was chosen. */
  function ChosenStage(st: RegState, library: Library): (stage: string)
    ensures stage != ""
    ensures StageKey(library) !in st.stages ==> stage == "testing"
    ensures StageKey(library) in st.stages && st.stages[StageKey(library)] != "" ==> stage == st.stages[StageKey(library)]
  {
    var k := StageKey(library);
    if k in st.stages && st.stages[k] != "" then st.stages[k] else "testing"
  }

  /** `updateRegistrationStage(library)`: the stage selected for the library (a parameter) is
      stored under its key; the protocol and the other libraries' stages stay. */
  function UpdateRegistrationStage(st: RegState, library: Library, selected: string): (r: RegState)
    ensures r.protocol == st.protocol
    ensures StageKey(library) in r.stages && r.stages[StageKey(library)] == selected
    ensures forall k :: k != StageKey(library) ==> (k in r.stages <==> k in st.stages)
    ensures forall k :: k != StageKey(library) && k in st.stages ==> r.stages[k] == st.stages[k]
  {
    st.(stages := st.stages[StageKey(library) := selected])
  }

  /** Which status block a library shows: `success` and `failure` as such, `null` (including no
      record at all) as not registered; a missing status shows nothing. */
  function StatusBlockFor(status: Nullable): (b: StatusBlock)
    ensures b == Registered <==> status == Val("success")
    ensures b == Failed <==> status == Val("failure")
    ensures b == NotRegistered <==> status == Null
  {
    if status == Val("success") then Registered
    else if status == Val("failure") then Failed
    else if status == Null then NotRegistered
    else NoStatus
  }

  /** The label of the register button of a status block; the not-registered block's is `Register`. */
  function ButtonLabel(block: StatusBlock): (text: Option<string>)
    ensures text.None? <==> block == NoStatus
  {
    match block
    case Registered => Some("Update registration")
    case Failed => Some("Retry registration")
    case NotRegistered => Some("Register")
    case NoStatus => None
  }

  predicate TruthyNullable(v: Nullable) {
    v.Val? && v.s != ""
  }

  /** The current-stage line: the stage, unless there is none or the registration failed. */
  function CurrentStageText(status: Nullable, stage: Nullable): (text: string)
    ensures TruthyNullable(stage) && status != Val("failure") ==> text == "Current Stage: " + stage.s
    ensures !TruthyNullable(stage) || status == Val("failure") ==> text == "No current stage"
  {
    if TruthyNullable(stage) && status != Val("failure") then "Current Stage: " + stage.s else "No current stage"
  }

  /** The stage selector shows unless the library is in production already. */
  predicate ShowStageSelector(stage: Nullable) {
    stage != Val("production")
  }

  /** The value the stage selector starts at: the current stage, else `"testing"`. */
  function SelectorValue(stage: Nullable): (v: string)
    ensures TruthyNullable(stage) ==> v == stage.s
    ensures !TruthyNullable(stage) ==> v == "testing"
  {
    if TruthyNullable(stage) then stage.s else "testing"
  }

  /** Whether `render` draws the form: `None` when it throws. It tests the item, then the
      protocol (which throws with a protocol chosen and no data), then the data and its
      libraries, stopping at the first falsy test. */
  function Renders(item: Option<Service>, st: RegState, data: Option<RegistrationData>): (r: Option<bool>)
    ensures r.None? <==> item.Some? && ProtocolChosen(st) && data.None?
    ensures r == Some(true) <==> (item.Some? && ProtocolSupportsRegistration(st, data) == Some(true)
      && data.Some? && data.value.allLibraries.Some? && |data.value.allLibraries.value| > 0)
    ensures item.None? || !ProtocolChosen(st) ==> r == Some(false)
  {
    if item.None? then Some(false)
    else match ProtocolSupportsRegistration(st, data)
      case None => None
      case Some(supported) =>
        Some(supported && data.Some? && data.value.allLibraries.Some? && |data.value.allLibraries.value| > 0)
  }

  // ----- Lemmas -----

  /** Choosing a stage for one library does not change the stage sent for another. */
  lemma UpdateStageIsLocal(st: RegState, library: Library, other: Library, selected: string)
    requires StageKey(other) != StageKey(library)
    ensures ChosenStage(UpdateRegistrationStage(st, library, selected), other) == ChosenStage(st, other)
  {
  }

  /** Choosing a non-empty stage makes it the one sent for that library. */
  lemma UpdateStageIsSent(st: RegState, library: Library, selected: string)
    requires selected != ""
    ensures ChosenStage(UpdateRegistrationStage(st, library, selected), library) == selected
  {
  }

  /** Libraries without a short name share one stage: both are stored under `"undefined"`. */
  lemma UnnamedLibrariesShareStage(st: RegState, a: Library, b: Library, selected: string)
    requires a.shortName.None? && b.shortName.None?
    ensures ChosenStage(UpdateRegistrationStage(st, a, selected), b) == ChosenStage(UpdateRegistrationStage(st, a, selected), a)
  {
  }

  /** A library without a registration record shows the Register button. */
  lemma NoRecordMeansRegister(item: Option<Service>, data: Option<RegistrationData>, library: Library)
    requires GetLibraryInfo(item, data, library).None?
    ensures ButtonLabel(StatusBlockFor(GetLibraryProp(item, data, library, Status))) == Some("Register")
  {
  }

  /** A registration record found is one of the edited service's records for that library. */
  lemma {:induction false} InfoBelongsToService(services: seq<ServiceInfo>, serviceId: Option<string>, library: Library, info: LibraryInfo)
    requires info in Candidates(services, serviceId, library)
    ensures exists i :: 0 <= i < |services| && services[i].id == serviceId && info in services[i].libraries
  {
    if |services| != 0 {
      var head := if services[0].id == serviceId then Filter(NamedLike(library), services[0].libraries) else [];
      if info in head {
        var k :| 0 <= k < |head| && head[k] == info;
      } else {
        InfoBelongsToService(services[1..], serviceId, library, info);
        var i :| 0 <= i < |services[1..]| && services[1..][i].id == serviceId && info in services[1..][i].libraries;
        assert services[i + 1] == services[1..][i];
      }
    }
  }

  // The registration scenario: a service with id "2" holding records for two of three libraries,
  // one registered in production and one whose registration failed.

  const nypl := Library(Some("nypl"), Some("New York Public Library"))
  const bpl := Library(Some("bpl"), Some("Brooklyn Public Library"))
  const qpl := Library(Some("qpl"), Some("Queens Public Library"))
  const nyplRecord := LibraryInfo(Some("nypl"), Val("success"), Val("production"))
  const bplRecord := LibraryInfo(Some("bpl"), Val("failure"), Val("testing"))
  const scenarioService := ServiceInfo(Some("2"), [nyplRecord, bplRecord])
  const scenarioData := Some(RegistrationData(
    Some([Protocol("Library Simplified Registry", Some(true))]),
    Some([nypl, bpl, qpl]),
    Some([scenarioService])))
  const scenarioItem := Some(Service(Some("2")))

  /** The scenario's candidate records for a library are those of its one service. */
  lemma ScenarioCandidates(library: Library)
    ensures Candidates(Registrations(scenarioData), ServiceId(scenarioItem), library)
         == Filter(NamedLike(library), [nyplRecord, bplRecord])
  {
    CandidatesOfOne(scenarioService, Some("2"), library);
  }

  /** The scenario service holds a record for nypl and one for bpl, in that order. */
  lemma ScenarioFilter(library: Library)
    ensures Filter(NamedLike(library), [nyplRecord, bplRecord])
         == (if library.shortName == Some("nypl") then [nyplRecord] else [])
          + (if library.shortName == Some("bpl") then [bplRecord] else [])
  {
    assert [nyplRecord, bplRecord][1..] == [bplRecord];
    assert [bplRecord][1..] == [];
  }

  lemma ScenarioRecords()
    ensures GetLibraryInfo(scenarioItem, scenarioData, nypl) == Some(nyplRecord)
    ensures GetLibraryInfo(scenarioItem, scenarioData, bpl) == Some(bplRecord)
    ensures GetLibraryInfo(scenarioItem, scenarioData, qpl) == None
  {
    ScenarioCandidates(nypl);
    ScenarioFilter(nypl);
    ScenarioCandidates(bpl);
    ScenarioFilter(bpl);
    ScenarioCandidates(qpl);
    ScenarioFilter(qpl);
  }

  /** In the scenario the form renders; the registered library offers an update and no stage
      selector, the failed one a retry and no current stage, the unlisted one a registration. */
  lemma RegistrationScenario()
    ensures Renders(scenarioItem, Init(Some("Library Simplified Registry")), scenarioData) == Some(true)
    ensures ButtonLabel(StatusBlockFor(GetLibraryProp(scenarioItem, scenarioData, nypl, Status))) == Some("Update registration")
    ensures !ShowStageSelector(GetLibraryProp(scenarioItem, scenarioData, nypl, Stage))
    ensures ButtonLabel(StatusBlockFor(GetLibraryProp(scenarioItem, scenarioData, bpl, Status))) == Some("Retry registration")
    ensures CurrentStageText(GetLibraryProp(scenarioItem, scenarioData, bpl, Status), GetLibraryProp(scenarioItem, scenarioData, bpl, Stage)) == "No current stage"
    ensures ButtonLabel(StatusBlockFor(GetLibraryProp(scenarioItem, scenarioData, qpl, Status))) == Some("Register")
  {
    ScenarioRecords();
    assert FirstIndex([Protocol("Library Simplified Registry", Some(true))], "Library Simplified Registry") == 0;
  }
}
