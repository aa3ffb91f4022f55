/**
  The provider-to-model drill-down of ModelSelectorBase. Its state is two component
  variables, `isOpen` and `selectedProvider`. Each handler runs as a single step and
  reads the state as it was before the event.

  `Step` and `Render` give the behaviour as plain functions over the state.
  `ModelSelectorBase` is the component: a class whose handlers update the two fields
  in place and keep a ghost log of the `onModelSelect` calls.
 */
module Selector {
  import opened Wrappers
  import opened Catalog

  datatype SelectorState = SelectorState(isOpen: bool, selectedProvider: Option<string>)

  /** `useState(false)` and `useState<string | null>(null)`. */
  const Initial := SelectorState(false, None)

  /** JavaScript truthiness of `selectedProvider`: null and "" are falsy. */
  predicate Truthy(p: Option<string>)
  {
    p.Some? && p.value != ""
  }

  /** One call `onModelSelect(model, providerName)`. */
  datatype Selection = Selection(model: string, providerName: string)

  /** The four handlers: `toggleDropdown`, `handleProviderSelect`, the inline
      `setSelectedProvider(null)` of the provider header, and `handleModelSelect`. */
  datatype Event =
    | Toggle
    | ProviderChosen(providerName: string)
    | BackClicked
    | ModelChosen(model: string, providerName: string)

  /** The state after a handler runs. */
  function Step(s: SelectorState, e: Event): SelectorState
  {
    match e
    case Toggle => SelectorState(!s.isOpen, if !s.isOpen then None else s.selectedProvider)
    case ProviderChosen(p) => s.(selectedProvider := Some(p))
    case BackClicked => s.(selectedProvider := None)
    case ModelChosen(_, _) => SelectorState(false, None)
  }

  /** The `onModelSelect` calls a handler makes. */
  function Callbacks(e: Event): seq<Selection>
  {
    if e.ModelChosen? then [Selection(e.model, e.providerName)] else []
  }

  // ----- What is shown -----

  /** A provider row: its key as title and its group's length as "<count> models". */
  datatype ProviderEntry = ProviderEntry(providerName: string, count: nat)

  /** A model row: the display name as title, and the arguments its click passes on. */
  datatype ModelEntry = ModelEntry(title: string, model: string, providerName: string)

  datatype View =
    | Collapsed
    | ProviderList(providers: seq<ProviderEntry>)
    | ModelList(header: string, models: seq<ModelEntry>)

  function ProviderEntries(ks: seq<string>, groups: map<string, seq<ModelDescriptor>>): seq<ProviderEntry>
    requires forall k :: k in ks ==> k in groups
  {
    seq(|ks|, i requires 0 <= i < |ks| => ProviderEntry(ks[i], |groups[ks[i]]|))
  }

  /** `model.provider?.providerName || ""`. */
  function ProviderArgument(m: ModelDescriptor): string
  {
    match m.provider
    case Some(n) => n
    case None => ""
  }

  function ModelEntries(ms: seq<ModelDescriptor>): seq<ModelEntry>
  {
    seq(|ms|, i requires 0 <= i < |ms| => ModelEntry(ms[i].displayName, ms[i].name, ProviderArgument(ms[i])))
  }

  /** The list view can be drawn: `groupModels[selectedProvider]` exists whenever the
      model list is to be shown. Otherwise the component fails while rendering. */
  predicate Renderable(s: SelectorState, catalog: seq<ModelDescriptor>)
  {
    s.isOpen && Truthy(s.selectedProvider) ==> s.selectedProvider.value in GroupModels(catalog).groups
  }

  /** The dropdown: nothing while closed; the chosen provider's models when a provider
      is selected (truthy); the provider list otherwise. */
  function Render(s: SelectorState, catalog: seq<ModelDescriptor>): View
    requires Renderable(s, catalog)
  {
    var g := GroupModels(catalog);
    if !s.isOpen then Collapsed
    else if Truthy(s.selectedProvider) then
      ModelList(s.selectedProvider.value, ModelEntries(g.groups[s.selectedProvider.value]))
    else ProviderList(ProviderEntries(g.keys, g.groups))
  }

  // ----- Clicks -----

  /** What can be clicked: the closed control, the backdrop, a provider row, the
      "← provider" header, a model row. */
  datatype Target =
    | SelectedModel
    | Backdrop
    | ProviderItem(index: nat)
    | ProviderHeader
    | ModelItem(index: nat)

  /** The handler a click on `t` runs when `v` is on screen; None when `t` is not shown. */
  function EventAt(v: View, t: Target): Option<Event>
  {
    match t
    case SelectedModel => Some(Toggle)
    case Backdrop => if v.Collapsed? then None else Some(Toggle)
    case ProviderItem(i) =>
      if v.ProviderList? && i < |v.providers| then Some(ProviderChosen(v.providers[i].providerName)) else None
    case ProviderHeader => if v.ModelList? then Some(BackClicked) else None
    case ModelItem(i) =>
      if v.ModelList? && i < |v.models| then Some(ModelChosen(v.models[i].model, v.models[i].providerName)) else None
  }

  /** The state after a click. With the catalog unchanged, a drawable state stays drawable. */
  function ClickStep(s: SelectorState, catalog: seq<ModelDescriptor>, t: Target): (r: SelectorState)
    requires Renderable(s, catalog)
    ensures Renderable(r, catalog)
  {
    match EventAt(Render(s, catalog), t)
    case Some(e) => Step(s, e)
    case None => s
  }

  function ClickCallbacks(s: SelectorState, catalog: seq<ModelDescriptor>, t: Target): seq<Selection>
    requires Renderable(s, catalog)
  {
    match EventAt(Render(s, catalog), t)
    case Some(e) => Callbacks(e)
    case None => []
  }

  /** The views seen after each click of `ts`. */
  function RunViews(s: SelectorState, catalog: seq<ModelDescriptor>, ts: seq<Target>): (vs: seq<View>)
    requires Renderable(s, catalog)
    ensures |vs| == |ts|
    decreases ts
  {
    if ts == [] then []
    else
      var s' := ClickStep(s, catalog, ts[0]);
      [Render(s', catalog)] + RunViews(s', catalog, ts[1..])
  }

  /** The `onModelSelect` calls made by the clicks of `ts`. */
  function RunCallbacks(s: SelectorState, catalog: seq<ModelDescriptor>, ts: seq<Target>): seq<Selection>
    requires Renderable(s, catalog)
    decreases ts
  {
    if ts == [] then []
    else ClickCallbacks(s, catalog, ts[0]) + RunCallbacks(ClickStep(s, catalog, ts[0]), catalog, ts[1..])
  }

  // ----- Properties of the drill-down -----

  /** Opening always starts at the provider list, whatever provider was chosen before. */
  lemma OpenStartsAtProviderList(s: SelectorState, catalog: seq<ModelDescriptor>)
    requires !s.isOpen
    ensures ClickStep(s, catalog, SelectedModel) == SelectorState(true, None)
    ensures Render(ClickStep(s, catalog, SelectedModel), catalog) ==
              ProviderList(ProviderEntries(GroupModels(catalog).keys, GroupModels(catalog).groups))
  {
  }

  /** Closing, from the control or from the backdrop (the same handler), hides the
      dropdown and leaves `selectedProvider` as it was. */
  lemma CloseKeepsProvider(s: SelectorState, catalog: seq<ModelDescriptor>, t: Target)
    requires s.isOpen && Renderable(s, catalog)
    requires t == SelectedModel || t == Backdrop
    ensures ClickStep(s, catalog, t) == SelectorState(false, s.selectedProvider)
    ensures Render(ClickStep(s, catalog, t), catalog) == Collapsed
    ensures ClickCallbacks(s, catalog, t) == []
  {
  }

  /** While closed, only the control reacts, and it opens the dropdown. */
  lemma ClosedOnlyToggles(s: SelectorState, catalog: seq<ModelDescriptor>, t: Target)
    requires !s.isOpen
    ensures EventAt(Render(s, catalog), t).Some? <==> t == SelectedModel
    ensures t != SelectedModel ==> ClickStep(s, catalog, t) == s
  {
  }

  /** Choosing the i-th provider selects its key and keeps the dropdown open; the
      group's models are then listed, unless the key is "" (falsy), in which case the
      provider list stays. The count shown is the length of that group. */
  lemma ProviderItemDrillsDown(s: SelectorState, catalog: seq<ModelDescriptor>, i: nat)
    requires s.isOpen && !Truthy(s.selectedProvider)
    requires i < |GroupModels(catalog).keys|
    ensures var g := GroupModels(catalog);
            var p := g.keys[i];
            Render(s, catalog).providers[i] == ProviderEntry(p, |g.groups[p]|) &&
            ClickStep(s, catalog, ProviderItem(i)) == SelectorState(true, Some(p)) &&
            Render(ClickStep(s, catalog, ProviderItem(i)), catalog) ==
              (if p != "" then ModelList(p, ModelEntries(g.groups[p])) else Render(s, catalog))
  {
  }

  /** The "← provider" header goes back to the provider list and stays open. */
  lemma HeaderGoesBack(s: SelectorState, catalog: seq<ModelDescriptor>)
    requires s.isOpen && Truthy(s.selectedProvider) && Renderable(s, catalog)
    ensures ClickStep(s, catalog, ProviderHeader) == SelectorState(true, None)
    ensures Render(ClickStep(s, catalog, ProviderHeader), catalog) ==
              ProviderList(ProviderEntries(GroupModels(catalog).keys, GroupModels(catalog).groups))
  {
  }

  /** A model listed under key p is an available catalog entry with key p. */
  lemma GroupedModel(catalog: seq<ModelDescriptor>, p: string, i: nat)
    requires p in GroupModels(catalog).groups && i < |GroupModels(catalog).groups[p]|
    ensures var m := GroupModels(catalog).groups[p][i];
            m in catalog && m.available && GroupKey(m) == p
  {
    var ms := GroupModels(catalog).groups[p];
    GroupModelsOrder(catalog, p);
    assert ms[i] in ms;
  }

  /** Choosing the i-th model of provider p calls `onModelSelect` exactly once, with
      the model's name and p (or "" for a descriptor without a provider, which sits
      under the key "undefined"), and closes the dropdown with no provider selected. */
  lemma ModelItemSelects(s: SelectorState, catalog: seq<ModelDescriptor>, i: nat)
    requires s.isOpen && Truthy(s.selectedProvider) && Renderable(s, catalog)
    requires i < |GroupModels(catalog).groups[s.selectedProvider.value]|
    ensures var p := s.selectedProvider.value;
            var m := GroupModels(catalog).groups[p][i];
            m in catalog && m.available &&
            ClickStep(s, catalog, ModelItem(i)) == Initial &&
            ClickCallbacks(s, catalog, ModelItem(i)) ==
              [Selection(m.name, if m.provider.Some? then p else "")]
  {
    var p := s.selectedProvider.value;
    var ms := GroupModels(catalog).groups[p];
    GroupedModel(catalog, p, i);
    var v := Render(s, catalog);
    assert v == ModelList(p, ModelEntries(ms));
    assert v.models[i] == ModelEntry(ms[i].displayName, ms[i].name, ProviderArgument(ms[i]));
  }

  /** The retained provider of a closed selector can never be seen: two closed
      selectors show the same views and make the same calls for every click sequence.
      So keeping it (as the source does) and clearing it on close are
      indistinguishable. */
  lemma {:induction false} ClosedStatesAgree(s1: SelectorState, s2: SelectorState, catalog: seq<ModelDescriptor>, ts: seq<Target>)
    requires !s1.isOpen && !s2.isOpen
    ensures RunViews(s1, catalog, ts) == RunViews(s2, catalog, ts)
    ensures RunCallbacks(s1, catalog, ts) == RunCallbacks(s2, catalog, ts)
  {
    if ts != [] {
      var n1, n2 := ClickStep(s1, catalog, ts[0]), ClickStep(s2, catalog, ts[0]);
      if ts[0] == SelectedModel {
        assert n1 == n2;
      } else {
        ClosedStatesAgree(n1, n2, catalog, ts[1..]);
      }
    }
  }

  // ----- The component -----

  class ModelSelectorBase {
    var isOpen: bool
    var selectedProvider: Option<string>
    /** Every `onModelSelect(model, providerName)` call so far, oldest first. */
    ghost var callbacks: seq<Selection>

    function State(): SelectorState
      reads this
    {
      SelectorState(isOpen, selectedProvider)
    }

    constructor ()
      ensures State() == Initial && callbacks == []
    {
      isOpen, selectedProvider := false, None;
      callbacks := [];
    }

    /** `toggleDropdown`: both reads of `isOpen` see the value before the click. */
    method ToggleDropdown()
      modifies this
      ensures isOpen == !old(isOpen)
      ensures selectedProvider == if old(isOpen) then old(selectedProvider) else None
      ensures State() == Step(old(State()), Toggle) && callbacks == old(callbacks)
    {
      var wasOpen := isOpen;
      isOpen := !wasOpen;
      if !wasOpen {
        selectedProvider := None;
      }
    }

    /** `handleProviderSelect`. */
    method HandleProviderSelect(providerName: string)
      modifies this
      ensures isOpen == old(isOpen) && selectedProvider == Some(providerName)
      ensures State() == Step(old(State()), ProviderChosen(providerName)) && callbacks == old(callbacks)
    {
      selectedProvider := Some(providerName);
    }

    /** The provider header's `setSelectedProvider(null)`. */
    method HandleBack()
      modifies this
      ensures isOpen == old(isOpen) && selectedProvider == None
      ensures State() == Step(old(State()), BackClicked) && callbacks == old(callbacks)
    {
      selectedProvider := None;
    }

    /** `handleModelSelect`: one `onModelSelect` call, then reset to closed with no
        provider. */
    method HandleModelSelect(model: string, providerName: string)
      modifies this
      ensures State() == Initial
      ensures callbacks == old(callbacks) + [Selection(model, providerName)]
      ensures State() == Step(old(State()), ModelChosen(model, providerName))
    {
      callbacks := callbacks + [Selection(model, providerName)];
      selectedProvider := None;
      isOpen := false;
    }

    /** A click on `t` as drawn for `catalog`: runs the handler bound to `t`, or
        nothing when `t` is not on screen. */
    method OnClick(catalog: seq<ModelDescriptor>, t: Target)
      requires Renderable(State(), catalog)
      modifies this
      ensures State() == ClickStep(old(State()), catalog, t)
      ensures callbacks == old(callbacks) + ClickCallbacks(old(State()), catalog, t)
    {
      var e := EventAt(Render(State(), catalog), t);
      match e {
        case None =>
        case Some(Toggle) => ToggleDropdown();
        case Some(ProviderChosen(p)) => HandleProviderSelect(p);
        case Some(BackClicked) => HandleBack();
        case Some(ModelChosen(m, p)) => HandleModelSelect(m, p);
      }
    }
  }
}
