/**
  The panel: the primary and compression selectors bound to their pairs of the
  configuration, and the list of parameter rows, of which the Google provider sees
  fewer.
 */
module Panel {
  import opened Wrappers
  import opened Catalog
  import opened Selector
  import opened Config

  /** ProviderModelSelector or CompressModelSelector. */
  datatype SelectorKind = Primary | Compress

  /** The `(currentModel, currentProvider)` a selector is given. */
  function BoundPair(kind: SelectorKind, c: ModelConfig): (string, string)
  {
    match kind
    case Primary => (c.model, c.providerName)
    case Compress => (c.compressModel, c.compressProviderName)
  }

  /** The updater a selector's `handleModelSelect` passes to `updateConfig`. */
  function OnModelSelect(kind: SelectorKind, model: string, providerName: string): Update
  {
    match kind
    case Primary => SelectModel(model, providerName)
    case Compress => SelectCompressModel(model, providerName)
  }

  function Other(kind: SelectorKind): SelectorKind
  {
    if kind == Primary then Compress else Primary
  }

  /** The label a selector shows for the pair it is bound to. */
  function SelectorLabel(kind: SelectorKind, catalog: seq<ModelDescriptor>, c: ModelConfig): string
  {
    SelectedLabel(catalog, BoundPair(kind, c).0, Some(BoundPair(kind, c).1))
  }

  /** A selection writes both fields of its own pair, the model through the model
      validator, and leaves the other selector's pair and every scalar field alone. */
  lemma SelectionWritesOwnPair(v: ModalConfigValidator, c: ModelConfig, kind: SelectorKind, model: string, providerName: string)
    ensures var d := Apply(v, c, OnModelSelect(kind, model, providerName));
            BoundPair(kind, d) == (v.model(model), providerName) &&
            BoundPair(Other(kind), d) == BoundPair(Other(kind), c) &&
            Changed(c, d) <= {ModelField, ProviderNameField, CompressModelField, CompressProviderNameField}
  {
  }

  /** After a selection the selector's label names the chosen model by the first
      matching catalog entry, or by its validated name when there is none. */
  lemma LabelAfterSelection(v: ModalConfigValidator, c: ModelConfig, kind: SelectorKind, catalog: seq<ModelDescriptor>,
                            model: string, providerName: string)
    requires v.model(model) != ""
    requires forall j :: 0 <= j < |catalog| ==> !Matches(catalog[j], v.model(model), Some(providerName))
    ensures SelectorLabel(kind, catalog, Apply(v, c, OnModelSelect(kind, model, providerName))) == v.model(model)
  {
    LabelWithoutMatch(catalog, v.model(model), Some(providerName));
  }

  /** Picking a listed model of a descriptor that has a provider, under a model
      validator that keeps its name, stores a pair that the catalog matches, so the
      label is the first match's display name, or the model name when that is empty. */
  lemma LabelAfterPickingListedModel(v: ModalConfigValidator, c: ModelConfig, kind: SelectorKind,
                                     catalog: seq<ModelDescriptor>, p: string, i: nat)
    requires p in GroupModels(catalog).groups && i < |GroupModels(catalog).groups[p]|
    requires GroupModels(catalog).groups[p][i].provider.Some?
    requires v.model(GroupModels(catalog).groups[p][i].name) == GroupModels(catalog).groups[p][i].name
    ensures var m := GroupModels(catalog).groups[p][i];
            var d := Apply(v, c, OnModelSelect(kind, m.name, ProviderArgument(m)));
            var found := FindIndex(catalog, m.name, Some(p));
            BoundPair(kind, d) == (m.name, p) &&
            found.Some? &&
            SelectorLabel(kind, catalog, d) ==
              if catalog[found.value].displayName != "" then catalog[found.value].displayName
              else if m.name != "" then m.name
              else "Select Model"
  {
    var m := GroupModels(catalog).groups[p][i];
    GroupedModel(catalog, p, i);
    var k :| 0 <= k < |catalog| && catalog[k] == m;
    assert Matches(catalog[k], m.name, Some(p));
  }

  // ----- The rows of ModelConfigList -----

  datatype Row =
    | ModelRow | TemperatureRow | TopPRow | MaxTokensRow
    | PresencePenaltyRow | FrequencyPenaltyRow | InjectSystemPromptsRow | InputTemplateRow
    | HistoryCountRow | CompressThresholdRow | SendMemoryRow | CompressModelRow

  /** The rows hidden when the primary provider is Google. */
  predicate ProviderGated(r: Row)
  {
    r == PresencePenaltyRow || r == FrequencyPenaltyRow || r == InjectSystemPromptsRow || r == InputTemplateRow
  }

  /** The rows shown, in order, for the configuration's `providerName`. */
  function VisibleRows(providerName: string): seq<Row>
  {
    [ModelRow, TemperatureRow, TopPRow, MaxTokensRow] +
    (if providerName == Google then []
     else [PresencePenaltyRow, FrequencyPenaltyRow, InjectSystemPromptsRow, InputTemplateRow]) +
    [HistoryCountRow, CompressThresholdRow, SendMemoryRow, CompressModelRow]
  }

  /** Which row's control makes an update. */
  function RowOf(u: Update): Row
  {
    match u
    case SelectModel(_, _) => ModelRow
    case SelectCompressModel(_, _) => CompressModelRow
    case SetTemperature(_) => TemperatureRow
    case SetTopP(_) => TopPRow
    case SetMaxTokens(_) => MaxTokensRow
    case SetPresencePenalty(_) => PresencePenaltyRow
    case SetFrequencyPenalty(_) => FrequencyPenaltyRow
    case SetInjectSystemPrompts(_) => InjectSystemPromptsRow
    case SetTemplate(_) => InputTemplateRow
    case SetHistoryMessageCount(_) => HistoryCountRow
    case SetCompressThreshold(_) => CompressThresholdRow
    case SetSendMemory(_) => SendMemoryRow
  }

  /** A row is shown unless it is one of the four gated rows and the provider is
      Google; every row appears at most once. */
  lemma RowVisibility(providerName: string, r: Row)
    ensures r in VisibleRows(providerName) <==> !ProviderGated(r) || providerName != Google
    ensures forall i, j :: 0 <= i < j < |VisibleRows(providerName)| ==>
              VisibleRows(providerName)[i] != VisibleRows(providerName)[j]
  {
  }

  /** Google's rows are the others' rows without the four gated ones, in the same order. */
  lemma GoogleRowsAreASubsequence(providerName: string)
    requires providerName != Google
    ensures |VisibleRows(providerName)| == 12 && |VisibleRows(Google)| == 8
    ensures VisibleRows(Google) == VisibleRows(providerName)[..4] + VisibleRows(providerName)[8..]
    ensures forall i :: 4 <= i < 8 ==> ProviderGated(VisibleRows(providerName)[i])
  {
  }

  /** On a Google configuration no visible row can change the penalties, the
      system-prompt switch or the template. */
  lemma GooglePanelLeavesGatedFieldsAlone(v: ModalConfigValidator, c: ModelConfig, u: Update)
    requires c.providerName == Google && RowOf(u) in VisibleRows(c.providerName)
    ensures var d := Apply(v, c, u);
            d.presence_penalty == c.presence_penalty && d.frequency_penalty == c.frequency_penalty &&
            d.enableInjectSystemPrompts == c.enableInjectSystemPrompts && d.template == c.template
  {
  }

  // ----- The panel's event handlers, composed -----

  /** A click on the i-th model row of an open selector of `kind`: `handleModelSelect`
      first runs the selector's `onModelSelect`, which hands the selector's updater to
      `updateConfig`, then closes the selector. */
  method PickModel(sel: ModelSelectorBase, store: ConfigStore, kind: SelectorKind, catalog: seq<ModelDescriptor>, i: nat)
    requires Renderable(sel.State(), catalog)
    requires Render(sel.State(), catalog).ModelList? && i < |Render(sel.State(), catalog).models|
    modifies sel, store
    ensures var e := old(Render(sel.State(), catalog)).models[i];
            sel.callbacks == old(sel.callbacks) + [Selection(e.model, e.providerName)] &&
            store.config == Apply(store.validator, old(store.config), OnModelSelect(kind, e.model, e.providerName)) &&
            store.updates == old(store.updates) + [OnModelSelect(kind, e.model, e.providerName)]
    ensures sel.State() == Initial
  {
    var e := Render(sel.State(), catalog).models[i];
    store.UpdateConfig(OnModelSelect(kind, e.model, e.providerName));
    sel.HandleModelSelect(e.model, e.providerName);
  }

  /** A change in one of the scalar rows, which exists only while that row is shown. */
  method ChangeRow(store: ConfigStore, u: Update)
    requires !u.SelectModel? && !u.SelectCompressModel?
    requires RowOf(u) in VisibleRows(store.config.providerName)
    modifies store
    ensures store.config == Apply(store.validator, old(store.config), u)
    ensures store.config.providerName == old(store.config.providerName)
    ensures store.updates == old(store.updates) + [u]
  {
    store.UpdateConfig(u);
  }
}
