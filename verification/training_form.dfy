/** The training form: season range, feature cap, the selected features in
    click order, the loading flag and the status message. */
module TrainingForm {
  import opened Wrappers
  import TrainRoute

  /** The status line under the form. */
  datatype Message =
    | NoMessage
    | SelectExactly(count: nat)
    | TrainingInProgress
    | TrainedWith(accuracy: real)
    | TrainingError(reason: string)

  datatype Form = Form(fromSeason: int, toSeason: int, numFeatures: nat, selected: seq<string>,
                       isLoading: bool, message: Message)

  /** The component's initial state. */
  const Initial: Form := Form(2010, 2023, 5, [], false, NoMessage)

  predicate NoDuplicates(s: seq<string>)
  {
    forall i, j :: 0 <= i < j < |s| ==> s[i] != s[j]
  }

  /** The selection invariant: no feature twice and no more than the cap. */
  predicate Valid(f: Form)
  {
    NoDuplicates(f.selected) && |f.selected| <= f.numFeatures
  }

  /** `r` is `s` with some entries dropped and the rest kept in order. */
  predicate IsSubsequence(r: seq<string>, s: seq<string>)
    decreases |s|
  {
    if |r| == 0 then true
    else if |s| == 0 then false
    else if r[0] == s[0] then IsSubsequence(r[1..], s[1..])
    else IsSubsequence(r, s[1..])
  }

  /** `filter(f => f !== x)`: every occurrence of `x` dropped, the rest kept in order. */
  function Without(s: seq<string>, x: string): (r: seq<string>)
    ensures forall y :: y in r <==> y in s && y != x
    ensures |r| <= |s|
    ensures x in s ==> |r| < |s|
    ensures NoDuplicates(s) ==> NoDuplicates(r)
  {
    if |s| == 0 then []
    else if s[0] == x then Without(s[1..], x)
    else
      var rest := Without(s[1..], x);
      assert NoDuplicates(s) ==> s[0] !in s[1..] && NoDuplicates(s[1..]);
      assert forall k :: 1 <= k < |[s[0]] + rest| ==> ([s[0]] + rest)[k] == rest[k - 1];
      [s[0]] + rest
  }

  /** The filter keeps the other names in their original order and with
      their original counts, and drops every copy of `x`. */
  lemma {:induction false} WithoutKeepsOrder(s: seq<string>, x: string)
    ensures IsSubsequence(Without(s, x), s)
    ensures multiset(Without(s, x)) == multiset(s)[x := 0]
  {
    if |s| > 0 {
      var rest := Without(s[1..], x);
      WithoutKeepsOrder(s[1..], x);
      assert s == [s[0]] + s[1..];
      if s[0] == x {
        if |rest| > 0 {
          assert rest[0] in rest;
        }
      } else {
        assert ([s[0]] + rest)[1..] == rest;
      }
    }
  }

  /** Removing an absent name changes nothing. */
  lemma {:induction false} WithoutAbsent(s: seq<string>, x: string)
    requires x !in s
    ensures Without(s, x) == s
  {
    if |s| > 0 {
      WithoutAbsent(s[1..], x);
      assert [s[0]] + s[1..] == s;
    }
  }

  /** In a duplicate-free list, removing the name at position `i` keeps the
      names before and after it, in order. */
  lemma {:induction false} WithoutAt(s: seq<string>, i: nat)
    requires NoDuplicates(s) && i < |s|
    ensures Without(s, s[i]) == s[..i] + s[i + 1..]
  {
    if i == 0 {
      assert s[i] !in s[1..];
      WithoutAbsent(s[1..], s[i]);
    } else {
      assert NoDuplicates(s[1..]);
      assert s[1..][i - 1] == s[i];
      WithoutAt(s[1..], i - 1);
      assert s[1..][..i - 1] == s[1..i];
      assert s[1..][i..] == s[i + 1..];
      assert [s[0]] + s[1..i] == s[..i];
    }
  }

  /** `handleFeatureSelect`: a selected feature is removed; an unselected one
      is appended only while the selection is below the cap. */
  function ToggleFeature(f: Form, feature: string): (g: Form)
    ensures g.(selected := f.selected) == f
    ensures forall y :: y in g.selected <==>
      (y in f.selected && y != feature) || (y == feature && feature !in f.selected && |f.selected| < f.numFeatures)
    ensures feature !in f.selected ==> f.selected <= g.selected
    ensures Valid(f) ==> Valid(g)
  {
    if feature in f.selected then
      f.(selected := Without(f.selected, feature))
    else if |f.selected| < f.numFeatures then
      f.(selected := f.selected + [feature])
    else
      f
  }

  /** Toggling a selected feature removes just that feature, keeping the
      order of the others. */
  lemma ToggleSelectedRemoves(f: Form, i: nat)
    requires Valid(f) && i < |f.selected|
    ensures ToggleFeature(f, f.selected[i]).selected == f.selected[..i] + f.selected[i + 1..]
  {
    WithoutAt(f.selected, i);
  }

  /** Toggling an unselected feature appends it below the cap and is a no-op
      at the cap. */
  lemma ToggleUnselected(f: Form, feature: string)
    requires feature !in f.selected
    ensures |f.selected| < f.numFeatures ==> ToggleFeature(f, feature).selected == f.selected + [feature]
    ensures |f.selected| >= f.numFeatures ==> ToggleFeature(f, feature) == f
  {
  }

  /** Clicking an unselected feature twice restores the form: below the cap
      the name is appended and then removed, at the cap both clicks do nothing. */
  lemma ToggleTwiceRestores(f: Form, feature: string)
    requires feature !in f.selected
    ensures ToggleFeature(ToggleFeature(f, feature), feature) == f
  {
    if |f.selected| < f.numFeatures {
      assert feature in f.selected + [feature];
      WithoutAppended(f.selected, feature);
    }
  }

  /** Appending an absent name and removing it gives the original list back. */
  lemma {:induction false} WithoutAppended(s: seq<string>, x: string)
    requires x !in s
    ensures Without(s + [x], x) == s
  {
    if |s| == 0 {
      assert [x][1..] == [];
    } else {
      assert (s + [x])[1..] == s[1..] + [x];
      WithoutAppended(s[1..], x);
      assert [s[0]] + s[1..] == s;
    }
  }

  /** `handleNumFeaturesChange`: the cap becomes `v`, and a longer selection
      is cut to its first `v` entries. */
  function SetNumFeatures(f: Form, v: nat): (g: Form)
    ensures g.(numFeatures := f.numFeatures, selected := f.selected) == f
    ensures g.numFeatures == v
    ensures g.selected <= f.selected
    ensures |g.selected| == if |f.selected| <= v then |f.selected| else v
    ensures NoDuplicates(f.selected) ==> Valid(g)
  {
    if |f.selected| > v then f.(numFeatures := v, selected := f.selected[..v])
    else f.(numFeatures := v)
  }

  /** The body the form posts to `/train-model`. */
  function RequestBody(f: Form): TrainRoute.Body
  {
    TrainRoute.Body(TrainRoute.Num(f.fromSeason as real), TrainRoute.Num(f.toSeason as real),
                    TrainRoute.Items(f.selected))
  }

  /** The form after a submit attempt and the request it sent, if any. */
  datatype Submitted = Submitted(form: Form, request: Option<TrainRoute.Body>)

  /** `handleSubmit` up to the request: a selection of the wrong size only sets
      the message; otherwise the form starts loading and posts the request. */
  function Submit(f: Form): (s: Submitted)
    ensures s.request.Some? <==> |f.selected| == f.numFeatures
    ensures s.request.None? ==> s.form == f.(message := SelectExactly(f.numFeatures))
    ensures s.request.Some? ==>
      && s.form.isLoading
      && s.form.(isLoading := f.isLoading, message := f.message) == f
      && s.request.value.fromSeason == TrainRoute.Num(f.fromSeason as real)
      && s.request.value.toSeason == TrainRoute.Num(f.toSeason as real)
      && s.request.value.features == TrainRoute.Items(f.selected)
      && s.form.message == TrainingInProgress
  {
    if |f.selected| != f.numFeatures then
      Submitted(f.(message := SelectExactly(f.numFeatures)), None)
    else
      Submitted(f.(isLoading := true, message := TrainingInProgress), Some(RequestBody(f)))
  }

  /** The reply to the posted request. */
  datatype Reply = Accepted(accuracy: real) | Rejected(reason: string)

  /** The end of `handleSubmit`: the message reports the reply and loading stops. */
  function FinishSubmit(f: Form, reply: Reply): (g: Form)
    ensures !g.isLoading
    ensures g.(isLoading := f.isLoading, message := f.message) == f
    ensures reply.Accepted? <==> g.message.TrainedWith?
    ensures reply.Accepted? ==> g.message == TrainedWith(reply.accuracy)
    ensures reply.Rejected? ==> g.message == TrainingError(reply.reason)
  {
    match reply
    case Accepted(a) => f.(isLoading := false, message := TrainedWith(a))
    case Rejected(e) => f.(isLoading := false, message := TrainingError(e))
  }

  /** The checkbox of a feature is disabled when it is unselected and the
      selection is at the cap. */
  predicate CheckboxDisabled(f: Form, feature: string)
  {
    feature !in f.selected && |f.selected| >= f.numFeatures
  }

  /** The submit button is disabled while loading or with a selection of the
      wrong size. */
  predicate SubmitDisabled(f: Form)
  {
    f.isLoading || |f.selected| != f.numFeatures
  }

  /** A checkbox is disabled exactly when clicking it would change nothing. */
  lemma CheckboxDisabledIffToggleIsNoOp(f: Form, feature: string)
    ensures CheckboxDisabled(f, feature) <==> ToggleFeature(f, feature) == f
  {
  }

  /** When not loading, the button is disabled exactly when the submit guard
      would refuse. */
  lemma SubmitDisabledIffGuardRefuses(f: Form)
    requires !f.isLoading
    ensures SubmitDisabled(f) <==> Submit(f).request.None?
  {
  }

  /** The user's actions on the form. */
  datatype Event =
    | Toggle(feature: string)
    | SetCap(cap: nat)
    | SetFrom(season: int)
    | SetTo(season: int)
    | SubmitForm
    | Finish(reply: Reply)

  function Step(f: Form, e: Event): Form
  {
    match e
    case Toggle(x) => ToggleFeature(f, x)
    case SetCap(v) => SetNumFeatures(f, v)
    case SetFrom(y) => f.(fromSeason := y)
    case SetTo(y) => f.(toSeason := y)
    case SubmitForm => Submit(f).form
    case Finish(r) => FinishSubmit(f, r)
  }

  function Run(f: Form, events: seq<Event>): Form
    decreases |events|
  {
    if |events| == 0 then f else Run(Step(f, events[0]), events[1..])
  }

  /** Every sequence of user actions from the initial form keeps the selection
      invariant. */
  lemma {:induction false} RunKeepsValid(f: Form, events: seq<Event>)
    requires Valid(f)
    ensures Valid(Run(f, events))
    decreases |events|
  {
    if |events| > 0 {
      RunKeepsValid(Step(f, events[0]), events[1..]);
    }
  }

  lemma ReachableFormsValid(events: seq<Event>)
    ensures Valid(Run(Initial, events))
  {
    RunKeepsValid(Initial, events);
  }

  /** What the route answers to a request `handleSubmit` posts: seasons of 0
      or an empty selection (a cap of 0) are invalid input, a reversed range
      is refused, and otherwise training gets the form's values unchanged.
      The browser's `min`/`max` checks, which may keep some of these from
      being posted at all, are not part of the model. */
  lemma SubmittedRequestVerdict(f: Form)
    requires Submit(f).request.Some?
    ensures TrainRoute.Validate(Submit(f).request.value) ==
      if f.fromSeason == 0 || f.toSeason == 0 || f.numFeatures == 0 then TrainRoute.InvalidInput
      else if f.fromSeason > f.toSeason then TrainRoute.SeasonOrder
      else TrainRoute.Train(f.fromSeason as real, f.toSeason as real, f.selected)
  {
  }
}
