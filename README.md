# Model selector and parameter panel of the chat settings

This project models, in Dafny, the model-configuration panel of the NextChat settings
page (`app/components/model-config.tsx`). The panel consists of three kinds of logic:

- **Catalog grouping and the selection label** (module `Catalog`). The panel filters the
  model catalog to the available descriptors and groups them by provider name. Grouping
  is modelled as the object that grouping produces: a key order plus a map from key to
  models. It is proved equal to a reference definition: keys in first-seen order, and
  each group holding its key's descriptors in catalog order. It is also proved to be a
  permutation of the filtered catalog, and idempotent. The label of the closed control
  comes from the first descriptor of the whole catalog that matches the stored
  (model, provider) pair, with fallbacks.
- **The provider → model drill-down** (module `Selector`). Its state is
  `isOpen` / `selectedProvider`. `Step` and `Render` are pure functions. The class
  `ModelSelectorBase` is the component: its handlers update the two fields in place and
  keep a ghost log of `onModelSelect` calls. Each handler is one atomic step that reads
  the state from before the event. Clicks on what is drawn (`Target`) are mapped to
  handlers. Properties proved:
  - every open starts at the provider list;
  - the backdrop is the same toggle;
  - a model click calls `onModelSelect` exactly once and closes the dropdown;
  - with the catalog unchanged, no sequence of clicks reaches the rendering failure at
    :64;
  - two closed selectors can never be told apart.
- **Configuration writes** (modules `Config` and `Panel`). `ModelConfig` is a record.
  The validators of the configuration store are a record of arbitrary functions, so
  nothing is assumed about what they compute. Each updater closure of the panel is a
  constructor of `Update`, and `ConfigStore.UpdateConfig` applies one of them to the
  live configuration. Properties proved:
  - each scalar row writes only its own field;
  - each selector writes only its own (model, provider) pair;
  - if the validators map into some ranges, no validated field ever leaves them;
  - the history-count and compression-threshold rows store raw input, and a typed
    threshold below the number input's minimum is stored as it is;
  - for the Google provider, four rows are hidden, so the panel cannot change those
    four fields.

The model follows the code where it departs from what a reader might expect:

- **Closing keeps the chosen provider.** `toggleDropdown` clears `selectedProvider`
  only when it opens the dropdown (:44-49), not when it closes it. So a closed
  selector can keep a provider. `Selector.ClosedStatesAgree` proves that clearing it
  on close as well would make no observable difference.
- **A provider without a name groups under "undefined".** Grouping by the path
  `provider.providerName` uses the string `"undefined"` as the key when the provider is
  missing, not an empty string. A model chosen from that group passes `""` as its
  provider (:71).
- **Empty strings count as missing.** A selected provider `""` is falsy, so the
  provider list stays on screen. An empty `displayName` falls through to the stored
  model name in the label (:102).
- **Google is a string comparison.** Row visibility compares `providerName` with
  Google (:248). It does not look up per-provider capabilities.
- **Two rows skip the validator.** The history-count and compression-threshold rows
  store the raw input (:342, :361-362).

## Model

| member | source | states |
|---|---|---|
| `Catalog.GroupKey` | app/components/model-config.tsx:20-23 | defines the key a descriptor is grouped under by the path `provider.providerName`: the provider name, or "undefined" when there is none; its use is stated by `Catalog.GroupModelsMembership` |
| `Catalog.Available` | app/components/model-config.tsx:21 | a descriptor is kept if and only if it is in the catalog and available; the result is no longer than the catalog |
| `Catalog.AvailableCounts` | app/components/model-config.tsx:21 | the filter keeps every available descriptor as often as the catalog holds it and drops every other one |
| `Catalog.GroupBy` | app/components/model-config.tsx:20-23 | the result's map has exactly the keys of its key order, and no key is listed twice |
| `Catalog.GroupModels` | app/components/model-config.tsx:20-23 | the grouping of the available models has the same well-formedness: map keys equal listed keys, no repeats |
| `Catalog.FirstSeenOrder` | app/components/model-config.tsx:84 | the listed provider keys are exactly the keys that occur, each once, ordered by their first occurrence |
| `Catalog.GroupByMeaning` | app/components/model-config.tsx:20-23 | the one-pass grouping lists keys in first-seen order and holds, under each key, exactly the descriptors with that key in input order |
| `Catalog.GroupByIsCanonical` | app/components/model-config.tsx:20-23 | the grouping equals the reference grouping built from first-seen keys and per-key filters |
| `Catalog.GroupByPermutation` | app/components/model-config.tsx:20-23 | the groups concatenated in key order are a permutation of the grouped list |
| `Catalog.GroupByIdempotent` | app/components/model-config.tsx:20-23 | grouping the concatenated groups again gives the same grouping |
| `Catalog.GroupModelsKeys` | app/components/model-config.tsx:20-23 | the provider keys are those of the available descriptors, in the order the filtered catalog first mentions them |
| `Catalog.GroupModelsOrder` | app/components/model-config.tsx:20-23 | each provider's group is the available descriptors with its key, in catalog order |
| `Catalog.GroupModelsPermutation` | app/components/model-config.tsx:20-23 | the groups together are a permutation of the filtered catalog, so the shown counts add up to the number of available models |
| `Catalog.GroupModelsMembership` | app/components/model-config.tsx:20-23 | a descriptor is offered if and only if it is available, and only under its own provider key |
| `Catalog.GroupModelsIdempotent` | app/components/model-config.tsx:20-23 | filtering and grouping the models the panel offers once more gives the same grouping |
| `Catalog.GroupingExample` | app/components/model-config.tsx:20-23 | for two available models of OpenAI and Google and one unavailable OpenAI model, the grouping is OpenAI: [gpt-4], Google: [gemini-pro] |
| `Catalog.Matches` | app/components/model-config.tsx:29-31 | defines the `find` predicate: same name and same provider, where a descriptor without a provider matches an absent current provider; `Catalog.FindIndex` states its use |
| `Catalog.FindIndex` | app/components/model-config.tsx:28-32 | the result is the first catalog position whose name and provider both match, or none when no position matches; availability plays no part |
| `Catalog.SelectedLabel` | app/components/model-config.tsx:102 | the label shown is never empty |
| `Catalog.LabelOfFirstMatch` | app/components/model-config.tsx:28-32 | with a match in the full catalog, the label is the first match's display name, or, when that is empty, the stored model name, then "Select Model" |
| `Catalog.LabelWithoutMatch` | app/components/model-config.tsx:102 | with no match, the label is the stored model name, or "Select Model" when that is empty |
| `Selector.Step` | app/components/model-config.tsx:34-59 | defines the state after each of the four handlers; the methods of `Selector.ModelSelectorBase` are proved to produce it, and the lemmas below state its behaviour |
| `Selector.Render` | app/components/model-config.tsx:52-120 | defines the dropdown shown for a state: nothing while closed, the chosen provider's models when `selectedProvider` is truthy, the provider list otherwise; `Selector.ProviderItemDrillsDown` and `Selector.HeaderGoesBack` state it |
| `Selector.ProviderArgument` | app/components/model-config.tsx:71 | defines the provider a model row passes on, `""` for a descriptor without a provider; `Selector.ModelItemSelects` states it |
| `Selector.EventAt` | app/components/model-config.tsx:59-116 | defines the handler bound to each clickable element of a view; `Selector.ClosedOnlyToggles` and `Selector.CloseKeepsProvider` state it |
| `Selector.ClickStep` | app/components/model-config.tsx:98-120 | with the catalog unchanged, any click from a drawable state leads to a drawable state (the model list lookup never fails) |
| `Selector.OpenStartsAtProviderList` | app/components/model-config.tsx:44-49 | opening a closed selector gives open with no provider, showing the provider list, whatever provider was chosen before |
| `Selector.CloseKeepsProvider` | app/components/model-config.tsx:112-117 | the control and the backdrop both close an open selector, leave `selectedProvider` unchanged and make no call |
| `Selector.ClosedOnlyToggles` | app/components/model-config.tsx:98-120 | while closed only the control reacts; every other click leaves the state unchanged |
| `Selector.ProviderItemDrillsDown` | app/components/model-config.tsx:84-90 | the i-th provider row shows key i with its group's length; clicking it selects that key and keeps the dropdown open; then that group's models are listed, or the provider list stays when the key is "" |
| `Selector.HeaderGoesBack` | app/components/model-config.tsx:57-60 | the header clears the provider and stays open, showing the provider list |
| `Selector.GroupedModel` | app/components/model-config.tsx:64 | every model listed under key p is an available catalog entry whose key is p |
| `Selector.ModelItemSelects` | app/components/model-config.tsx:64-73 | clicking the i-th model of provider p makes exactly one call, with the model's name and p (or "" when the descriptor has no provider), and returns to closed with no provider |
| `Selector.ClosedStatesAgree` | app/components/model-config.tsx:44-49 | two closed selectors give equal views and equal calls for every click sequence, so the provider kept on close is never observable |
| `Selector.ModelSelectorBase.constructor` | app/components/model-config.tsx:25-26 | a new selector is closed, has no provider and has made no call |
| `Selector.ModelSelectorBase.ToggleDropdown` | app/components/model-config.tsx:44-49 | `isOpen` flips; `selectedProvider` becomes null when opening and is unchanged when closing; no call is logged |
| `Selector.ModelSelectorBase.HandleProviderSelect` | app/components/model-config.tsx:34-36 | the provider becomes the chosen one and `isOpen` is unchanged |
| `Selector.ModelSelectorBase.HandleBack` | app/components/model-config.tsx:59 | the provider becomes null and `isOpen` is unchanged |
| `Selector.ModelSelectorBase.HandleModelSelect` | app/components/model-config.tsx:38-42 | the log grows by exactly the one call (model, provider), and the selector ends closed with no provider |
| `Selector.ModelSelectorBase.OnClick` | app/components/model-config.tsx:98-120 | a click runs the handler bound to what was clicked in the current view, or nothing when the target is not drawn |
| `Config.Apply` | app/components/model-config.tsx:128-390 | defines the configuration after each updater closure of the two selectors and the scalar rows; `Config.UpdateFrame`, `Config.UpdateStores` and `Config.UpdateKeepsRanges` state its properties |
| `Config.WritesSize` | app/components/model-config.tsx:128-156 | a model selection writes two fields, every scalar row one |
| `Config.UpdateFrame` | app/components/model-config.tsx:197-376 | an updater changes only the fields it writes: one field for each scalar row, the pair for each selector |
| `Config.UpdateStores` | app/components/model-config.tsx:197-376 | values stored by each row: sampling parameters and penalties get the validator's output, the two count rows get the raw input, the check boxes and template get the input unchanged |
| `Config.UpdateKeepsRanges` | app/components/model-config.tsx:197-291 | if every validator maps into a given range, no updater moves temperature, top_p, max_tokens or a penalty out of its range |
| `Config.ThresholdStoresOutOfBoundsInput` | app/components/model-config.tsx:348-366 | the compression-threshold row is a plain number input whose updater applies no validator, so a typed 10, below the input's minimum of 500, is stored as it is |
| `Config.ConfigStore.constructor` | app/components/model-config.tsx:167-170 | the store holds the given validators and configuration and has applied no updater |
| `Config.ConfigStore.UpdateConfig` | app/components/model-config.tsx:128-135 | applying an updater changes the configuration exactly as that updater does, and logs that one updater |
| `Panel.BoundPair` | app/components/model-config.tsx:136-164 | defines the (model, provider) pair each selector is given; `Panel.SelectionWritesOwnPair` states how a selection sets it |
| `Panel.OnModelSelect` | app/components/model-config.tsx:128-156 | defines the updater each selector hands to `updateConfig`; `Panel.SelectionWritesOwnPair` states what it writes |
| `Panel.SelectionWritesOwnPair` | app/components/model-config.tsx:130-156 | a selection sets its own pair to (validated model, provider) and leaves the other selector's pair and all scalar fields unchanged |
| `Panel.LabelAfterSelection` | app/components/model-config.tsx:138-142 | after selecting a model that matches no catalog entry, the selector's label is the validated model name |
| `Panel.LabelAfterPickingListedModel` | app/components/model-config.tsx:28-32 | picking a listed model of a descriptor with a provider, under a model validator that keeps the name, stores a pair that the whole catalog matches, so the label is the first match's display name, or else the model name |
| `Panel.VisibleRows` | app/components/model-config.tsx:181-390 | defines the rows shown, in order, with the four rows of lines 248-328 dropped for Google; `Panel.RowVisibility` and `Panel.GoogleRowsAreASubsequence` state it |
| `Panel.RowVisibility` | app/components/model-config.tsx:248-328 | a row is shown if and only if it is not one of the four gated rows or the provider is not Google; no row appears twice |
| `Panel.GoogleRowsAreASubsequence` | app/components/model-config.tsx:248-328 | other providers see 12 rows; Google sees the same list with the four gated rows removed, in the same order |
| `Panel.GooglePanelLeavesGatedFieldsAlone` | app/components/model-config.tsx:248-328 | with provider Google, no visible row can change the penalties, the system-prompt switch or the template |
| `Panel.PickModel` | app/components/model-config.tsx:126-143 | a model click in a selector of either kind writes that selector's updater to the store once, logs one callback, and closes the selector |
| `Panel.ChangeRow` | app/components/model-config.tsx:179-390 | a change in a visible scalar row applies that row's updater and does not change the provider |

## Left out

- Rendering: JSX, CSS classes, the down-arrow icon and the localized strings
  (`Locale`). The "(provider)" tag beside the label (:104-108) is presentation only.
- The validator bodies and the `ModelConfig` type (:2). They are defined elsewhere
  and are not part of this model. The validators are arbitrary functions, and no
  clamping range is assumed.
- `ServiceProvider` (:1). This enum is not part of this model. Providers are strings,
  and `Google` is the constant "Google".
- The `as ServiceProvider` cast has no run-time effect: the provider string is stored
  as it is.
- Catalog sourcing (`useAllModels`, :7, :19). The catalog is a parameter.
- The representation of the grouping object. Its observable result is modelled as a
  key order plus a map. Two JavaScript details are not modelled:
  - `Object.keys` lists integer-like keys first, in numeric order. Here all keys are
    in first-insertion order.
  - Keys that clash with `Object.prototype` members are not modelled.
- React scheduling and re-render timing. Each handler is one atomic step on the state
  from before the event.
- Floating point, `toFixed` formatting (:193, :213) and `valueAsNumber` yielding NaN.
  Numbers are `real`.
- The unused `value` / `compressModelValue` strings and the second grouping in
  `ModelConfigList` (:171-177).
- The failure at :64 when `groupModels[selectedProvider]` is missing, which happens
  only after the catalog changes. `Render` requires `Renderable` instead of modelling
  the failure. `Selector.ClickStep` proves that clicks under a fixed catalog never
  reach it.
- The controls' `min`, `max` and `step` attributes, and any clamping the range slider
  of `./input-range` may do, are not modelled (`InputRange` is not part of this
  model). Every row input is an arbitrary real, so the model does not say which
  history counts the slider can deliver.
- Persisting the configuration and the store's copy-on-update. The store is one
  object whose configuration record `UpdateConfig` replaces in place.
