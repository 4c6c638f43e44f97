/**
 * The store slice holding the individual admins: the loaded data, whether a fetch or an edit is
 * under way, the last request error, and whether a fetch has ever finished.
 */
module IndividualAdminsReducer {
  import opened Options

  /** The slice; `D` is the admins data and `E` a request error, both opaque here. */
  datatype State<D, E> = State(
    data: Option<D>,
    isFetching: bool,
    isEditing: bool,
    fetchError: Option<E>,
    isLoaded: bool)

  /** The actions the slice answers to; any other action type is `Other`. */
  datatype Action<D, E> =
    | Request
    | Load(data: Option<D>)
    | Failure(error: Option<E>)
    | EditRequest
    | EditSuccess
    | EditFailure(error: Option<E>)
    | Other(actionType: string)

  /** `initialState`: nothing loaded, nothing under way, no error. */
  function Initial<D, E>(): (s: State<D, E>)
    ensures s.data.None? && s.fetchError.None?
    ensures !s.isFetching && !s.isEditing && !s.isLoaded
  {
    State(None, false, false, None, false)
  }

  /** The reducer; a missing state is the initial one. */
  function Reduce<D, E>(state: Option<State<D, E>>, action: Action<D, E>): (r: State<D, E>)
    ensures var s := state.GetOr(Initial());
      match action
      case Request => r.isFetching && r.fetchError.None?
        && r.data == s.data && r.isEditing == s.isEditing && r.isLoaded == s.isLoaded
      case Load(d) => r.data == d && !r.isFetching && r.isLoaded
        && r.isEditing == s.isEditing && r.fetchError == s.fetchError
      case Failure(e) => r.fetchError == e && !r.isFetching && r.isLoaded
        && r.data == s.data && r.isEditing == s.isEditing
      case EditRequest => r.isEditing && r.fetchError.None?
        && r.data == s.data && r.isFetching == s.isFetching && r.isLoaded == s.isLoaded
      case EditSuccess => !r.isEditing && r.fetchError.None?
        && r.data == s.data && r.isFetching == s.isFetching && r.isLoaded == s.isLoaded
      case EditFailure(e) => !r.isEditing && r.fetchError == e
        && r.data == s.data && r.isFetching == s.isFetching && r.isLoaded == s.isLoaded
      case Other(_) => r == s
  {
    var s := state.GetOr(Initial());
    match action
    case Request => s.(isFetching := true, fetchError := None)
    case Load(d) => s.(data := d, isFetching := false, isLoaded := true)
    case Failure(e) => s.(fetchError := e, isFetching := false, isLoaded := true)
    case EditRequest => s.(isEditing := true, fetchError := None)
    case EditSuccess => s.(isEditing := false, fetchError := None)
    case EditFailure(e) => s.(isEditing := false, fetchError := e)
    case Other(_) => s
  }

  /** The slice after a sequence of actions, starting from a missing state. */
  function Run<D, E>(actions: seq<Action<D, E>>): State<D, E>
    decreases |actions|
  {
    if |actions| == 0 then Initial()
    else Reduce(Some(Run(actions[..|actions| - 1])), actions[|actions| - 1])
  }

  /** Data is only ever present once a fetch has finished. */
  predicate LoadedIfData<D, E>(s: State<D, E>) {
    s.data.Some? ==> s.isLoaded
  }

  // ----- Lemmas -----

  /** No action ever unsets `isLoaded`. */
  lemma LoadedIsMonotone<D, E>(s: State<D, E>, action: Action<D, E>)
    ensures s.isLoaded ==> Reduce(Some(s), action).isLoaded
  {
  }

  /** Every action preserves "data only when loaded". */
  lemma ReducePreservesLoadedIfData<D, E>(s: State<D, E>, action: Action<D, E>)
    requires LoadedIfData(s)
    ensures LoadedIfData(Reduce(Some(s), action))
  {
  }

  /** Every reachable state has data only when loaded, and once a load or failure has happened it
      stays loaded. */
  lemma {:induction false} RunKeepsLoadedIfData<D, E>(actions: seq<Action<D, E>>)
    ensures LoadedIfData(Run(actions))
    ensures (exists i :: 0 <= i < |actions| && (actions[i].Load? || actions[i].Failure?)) <==> Run(actions).isLoaded
    decreases |actions|
  {
    if |actions| != 0 {
      var front := actions[..|actions| - 1];
      var last := actions[|actions| - 1];
      RunKeepsLoadedIfData(front);
      ReducePreservesLoadedIfData(Run(front), last);
      if exists i :: 0 <= i < |front| && (front[i].Load? || front[i].Failure?) {
        var i :| 0 <= i < |front| && (front[i].Load? || front[i].Failure?);
        assert actions[i] == front[i];
      }
      if exists i :: 0 <= i < |actions| && (actions[i].Load? || actions[i].Failure?) {
        var i :| 0 <= i < |actions| && (actions[i].Load? || actions[i].Failure?);
        if i < |front| {
          assert front[i] == actions[i];
        }
      }
    }
  }

  /** A successful edit after an edit request leaves the slice as before the request, except that
      the error is cleared and no edit is under way. */
  lemma EditRoundTrip<D, E>(s: State<D, E>)
    ensures Reduce(Some(Reduce(Some(s), EditRequest)), EditSuccess) == s.(isEditing := false, fetchError := None)
  {
  }

  /** A fetch that loads data: fetching while the request is out, loaded with the data after. */
  lemma FetchScenario<D, E>(d: D)
    ensures Reduce<D, E>(None, Request).isFetching
    ensures Reduce(Some(Reduce<D, E>(None, Request)), Load(Some(d))) == State(Some(d), false, false, None, true)
  {
  }
}
