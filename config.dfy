/**
  The model configuration and the writes the settings panel makes to it.

  The validators and the configuration type are defined outside this model, so the
  validators are arbitrary functions passed in as a record. Nothing is assumed about
  their ranges. Numbers are `real`: floating point and NaN are not modelled.
 */
module Config {

  /** The provider whose panel hides the penalty, system-prompt and template rows. */
  const Google: string := "Google"

  /** `ModalConfigValidator`: one function per validated field. */
  datatype ModalConfigValidator = ModalConfigValidator(
    model: string -> string,
    temperature: real -> real,
    top_p: real -> real,
    max_tokens: real -> real,
    presence_penalty: real -> real,
    frequency_penalty: real -> real)

  /** The fields of `ModelConfig` that the panel reads or writes. */
  datatype ModelConfig = ModelConfig(
    model: string,
    providerName: string,
    compressModel: string,
    compressProviderName: string,
    temperature: real,
    top_p: real,
    max_tokens: real,
    presence_penalty: real,
    frequency_penalty: real,
    enableInjectSystemPrompts: bool,
    template: string,
    historyMessageCount: real,
    compressMessageLengthThreshold: real,
    sendMemory: bool)

  datatype Field =
    | ModelField | ProviderNameField | CompressModelField | CompressProviderNameField
    | TemperatureField | TopPField | MaxTokensField | PresencePenaltyField
    | FrequencyPenaltyField | InjectSystemPromptsField | TemplateField
    | HistoryMessageCountField | CompressThresholdField | SendMemoryField

  /** The fields in which two configurations differ. */
  function Changed(c: ModelConfig, d: ModelConfig): set<Field>
  {
    (if c.model != d.model then {ModelField} else {}) +
    (if c.providerName != d.providerName then {ProviderNameField} else {}) +
    (if c.compressModel != d.compressModel then {CompressModelField} else {}) +
    (if c.compressProviderName != d.compressProviderName then {CompressProviderNameField} else {}) +
    (if c.temperature != d.temperature then {TemperatureField} else {}) +
    (if c.top_p != d.top_p then {TopPField} else {}) +
    (if c.max_tokens != d.max_tokens then {MaxTokensField} else {}) +
    (if c.presence_penalty != d.presence_penalty then {PresencePenaltyField} else {}) +
    (if c.frequency_penalty != d.frequency_penalty then {FrequencyPenaltyField} else {}) +
    (if c.enableInjectSystemPrompts != d.enableInjectSystemPrompts then {InjectSystemPromptsField} else {}) +
    (if c.template != d.template then {TemplateField} else {}) +
    (if c.historyMessageCount != d.historyMessageCount then {HistoryMessageCountField} else {}) +
    (if c.compressMessageLengthThreshold != d.compressMessageLengthThreshold then {CompressThresholdField} else {}) +
    (if c.sendMemory != d.sendMemory then {SendMemoryField} else {})
  }

  /** The updater closures the panel hands to `updateConfig`, with the input each
      received: the two selectors' `handleModelSelect` and one per scalar row. */
  datatype Update =
    | SelectModel(model: string, providerName: string)
    | SelectCompressModel(model: string, providerName: string)
    | SetTemperature(x: real)
    | SetTopP(x: real)
    | SetMaxTokens(x: real)
    | SetPresencePenalty(x: real)
    | SetFrequencyPenalty(x: real)
    | SetInjectSystemPrompts(checked: bool)
    | SetTemplate(text: string)
    | SetHistoryMessageCount(x: real)
    | SetCompressThreshold(x: real)
    | SetSendMemory(checked: bool)

  /** The configuration after an updater ran on `c`. */
  function Apply(v: ModalConfigValidator, c: ModelConfig, u: Update): ModelConfig
  {
    match u
    case SelectModel(m, p) => c.(model := v.model(m), providerName := p)
    case SelectCompressModel(m, p) => c.(compressModel := v.model(m), compressProviderName := p)
    case SetTemperature(x) => c.(temperature := v.temperature(x))
    case SetTopP(x) => c.(top_p := v.top_p(x))
    case SetMaxTokens(x) => c.(max_tokens := v.max_tokens(x))
    case SetPresencePenalty(x) => c.(presence_penalty := v.presence_penalty(x))
    case SetFrequencyPenalty(x) => c.(frequency_penalty := v.frequency_penalty(x))
    case SetInjectSystemPrompts(b) => c.(enableInjectSystemPrompts := b)
    case SetTemplate(t) => c.(template := t)
    case SetHistoryMessageCount(x) => c.(historyMessageCount := x)
    case SetCompressThreshold(x) => c.(compressMessageLengthThreshold := x)
    case SetSendMemory(b) => c.(sendMemory := b)
  }

  /** The fields an updater assigns. */
  function Writes(u: Update): set<Field>
  {
    match u
    case SelectModel(_, _) => {ModelField, ProviderNameField}
    case SelectCompressModel(_, _) => {CompressModelField, CompressProviderNameField}
    case SetTemperature(_) => {TemperatureField}
    case SetTopP(_) => {TopPField}
    case SetMaxTokens(_) => {MaxTokensField}
    case SetPresencePenalty(_) => {PresencePenaltyField}
    case SetFrequencyPenalty(_) => {FrequencyPenaltyField}
    case SetInjectSystemPrompts(_) => {InjectSystemPromptsField}
    case SetTemplate(_) => {TemplateField}
    case SetHistoryMessageCount(_) => {HistoryMessageCountField}
    case SetCompressThreshold(_) => {CompressThresholdField}
    case SetSendMemory(_) => {SendMemoryField}
  }

  /** A model selection writes two fields, a scalar row one. */
  lemma WritesSize(u: Update)
    ensures |Writes(u)| == if u.SelectModel? || u.SelectCompressModel? then 2 else 1
  {
    match u
    case SelectModel(_, _) => assert ModelField != ProviderNameField;
    case SelectCompressModel(_, _) => assert CompressModelField != CompressProviderNameField;
    case _ =>
  }

  /** An updater changes no field but its own: a model selection its pair, a scalar
      row its one field. */
  lemma UpdateFrame(v: ModalConfigValidator, c: ModelConfig, u: Update)
    ensures Changed(c, Apply(v, c, u)) <= Writes(u)
    ensures |Writes(u)| == if u.SelectModel? || u.SelectCompressModel? then 2 else 1
  {
    WritesSize(u);
  }

  /** The value each updater stores: validated rows store the validator's output for
      the input, the two count rows store the raw input, and the check boxes and the
      template store the input as it is. */
  lemma UpdateStores(v: ModalConfigValidator, c: ModelConfig, u: Update)
    ensures u.SelectModel? ==>
              Apply(v, c, u).model == v.model(u.model) && Apply(v, c, u).providerName == u.providerName
    ensures u.SelectCompressModel? ==>
              Apply(v, c, u).compressModel == v.model(u.model) &&
              Apply(v, c, u).compressProviderName == u.providerName
    ensures u.SetTemperature? ==> Apply(v, c, u).temperature == v.temperature(u.x)
    ensures u.SetTopP? ==> Apply(v, c, u).top_p == v.top_p(u.x)
    ensures u.SetMaxTokens? ==> Apply(v, c, u).max_tokens == v.max_tokens(u.x)
    ensures u.SetPresencePenalty? ==> Apply(v, c, u).presence_penalty == v.presence_penalty(u.x)
    ensures u.SetFrequencyPenalty? ==> Apply(v, c, u).frequency_penalty == v.frequency_penalty(u.x)
    ensures u.SetHistoryMessageCount? ==> Apply(v, c, u).historyMessageCount == u.x
    ensures u.SetCompressThreshold? ==> Apply(v, c, u).compressMessageLengthThreshold == u.x
    ensures u.SetInjectSystemPrompts? ==> Apply(v, c, u).enableInjectSystemPrompts == u.checked
    ensures u.SetSendMemory? ==> Apply(v, c, u).sendMemory == u.checked
    ensures u.SetTemplate? ==> Apply(v, c, u).template == u.text
  {
  }

  // ----- The validator as the gate of the validated fields -----

  datatype Range = Range(lo: real, hi: real)

  predicate Within(x: real, r: Range)
  {
    r.lo <= x <= r.hi
  }

  /** A range for each field the panel validates. */
  datatype Ranges = Ranges(temperature: Range, top_p: Range, max_tokens: Range,
                           presence_penalty: Range, frequency_penalty: Range)

  /** The validators map every input into the ranges. */
  ghost predicate Confines(v: ModalConfigValidator, rs: Ranges)
  {
    (forall x :: Within(v.temperature(x), rs.temperature)) &&
    (forall x :: Within(v.top_p(x), rs.top_p)) &&
    (forall x :: Within(v.max_tokens(x), rs.max_tokens)) &&
    (forall x :: Within(v.presence_penalty(x), rs.presence_penalty)) &&
    (forall x :: Within(v.frequency_penalty(x), rs.frequency_penalty))
  }

  predicate InRanges(c: ModelConfig, rs: Ranges)
  {
    Within(c.temperature, rs.temperature) && Within(c.top_p, rs.top_p) &&
    Within(c.max_tokens, rs.max_tokens) && Within(c.presence_penalty, rs.presence_penalty) &&
    Within(c.frequency_penalty, rs.frequency_penalty)
  }

  /** Whatever ranges the validators enforce, no updater of the panel takes a
      validated field out of them. */
  lemma UpdateKeepsRanges(v: ModalConfigValidator, rs: Ranges, c: ModelConfig, u: Update)
    requires Confines(v, rs) && InRanges(c, rs)
    ensures InRanges(Apply(v, c, u), rs)
  {
  }

  /** The compression-threshold row is a plain number input whose updater does not go
      through a validator: a typed value below the input's declared minimum of 500 is
      stored as it is, whatever the validators do. */
  lemma ThresholdStoresOutOfBoundsInput(v: ModalConfigValidator, c: ModelConfig)
    ensures Apply(v, c, SetCompressThreshold(10.0)).compressMessageLengthThreshold < 500.0
  {
  }

  // ----- The store behind `updateConfig` -----

  /** The configuration object the panel edits in place through `updateConfig`. */
  class ConfigStore {
    const validator: ModalConfigValidator
    var config: ModelConfig
    /** Every updater applied so far, oldest first. */
    ghost var updates: seq<Update>

    constructor (validator: ModalConfigValidator, initial: ModelConfig)
      ensures this.validator == validator && config == initial && updates == []
    {
      this.validator := validator;
      config := initial;
      updates := [];
    }

    /** `updateConfig(updater)`: the updater assigns its fields of the live object. */
    method UpdateConfig(u: Update)
      modifies this
      ensures config == Apply(validator, old(config), u)
      ensures updates == old(updates) + [u]
    {
      match u {
        case SelectModel(m, p) =>
          config := config.(model := validator.model(m));
          config := config.(providerName := p);
        case SelectCompressModel(m, p) =>
          config := config.(compressModel := validator.model(m));
          config := config.(compressProviderName := p);
        case SetTemperature(x) => config := config.(temperature := validator.temperature(x));
        case SetTopP(x) => config := config.(top_p := validator.top_p(x));
        case SetMaxTokens(x) => config := config.(max_tokens := validator.max_tokens(x));
        case SetPresencePenalty(x) => config := config.(presence_penalty := validator.presence_penalty(x));
        case SetFrequencyPenalty(x) => config := config.(frequency_penalty := validator.frequency_penalty(x));
        case SetInjectSystemPrompts(b) => config := config.(enableInjectSystemPrompts := b);
        case SetTemplate(t) => config := config.(template := t);
        case SetHistoryMessageCount(x) => config := config.(historyMessageCount := x);
        case SetCompressThreshold(x) => config := config.(compressMessageLengthThreshold := x);
        case SetSendMemory(b) => config := config.(sendMemory := b);
      }
      updates := updates + [u];
    }
  }
}
