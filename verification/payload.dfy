/** The body sent to each target, made from one client payload. */
module Payloads {
  import opened Wrappers

  datatype Json = Bool(b: bool) | Str(s: string) | Other(id: int)

  /** The field names that some rule mentions, and all others. */
  datatype Name = Model | Thinking | Think | ReasoningEffort | MaxTokens | MaxOutputTokens | Plain(name: string)

  type Fields = map<Name, Json>

  datatype Endpoint = ChatCompletions | Responses

  datatype Protocol = OpenAI | Ollama

  datatype Target = Target(model: string, protocol: Protocol)

  class Payload {
    var fields: Fields

    constructor (fields: Fields)
      ensures this.fields == fields
    {
      this.fields := fields;
    }

    /** A copy that later changes to the original do not reach, nor the other way round. */
    method Clone() returns (clone: Payload)
      ensures fresh(clone) && clone.fields == fields
    {
      clone := new Payload(fields);
    }

    /** Configured fields win over the client's. */
    method Override(overrides: Fields)
      modifies this
      ensures fields == old(fields) + overrides
    {
      var rest := overrides;
      while rest != map[]
        invariant fields + rest == old(fields) + overrides
        decreases |rest|
      {
        var k :| k in rest;
        MergeOne(fields, rest, k);
        fields := fields[k := rest[k]];
        rest := rest - {k};
      }
    }

    method SetEffortFrom(value: Json)
      modifies this
      ensures fields == if ReasoningEffort !in old(fields) && EffortFrom(value).Some?
                        then old(fields)[ReasoningEffort := EffortFrom(value).value] else old(fields)
    {
      if ReasoningEffort !in fields {
        match value
        case Bool(b) => fields := fields[ReasoningEffort := Str(if b then "medium" else "none")];
        case Str(s) => fields := fields[ReasoningEffort := Str(s)];
        case Other(_) =>
      }
    }

    /** Translates the fields a provider's protocol or the endpoint names differently. */
    method ApplyCompatibility(endpoint: Endpoint, protocol: Protocol)
      modifies this
      ensures fields == Compatible(old(fields), endpoint, protocol)
    {
      if protocol.Ollama? {
        TranslateSwitches();
      }
      if endpoint.Responses? {
        RenameTokenLimit();
      }
    }

    method TranslateSwitches()
      modifies this
      ensures fields == ForOllama(old(fields))
    {
      if Thinking in fields {
        SetEffortFrom(fields[Thinking]);
        fields := fields - {Thinking};
      }
      ghost var between := fields;
      assert Effort(between) == Effort(old(fields));
      if Think in fields {
        SetEffortFrom(fields[Think]);
        fields := fields - {Think};
      }
      assert fields == ForOllama(between);
    }

    method RenameTokenLimit()
      modifies this
      ensures fields == ForResponses(old(fields))
    {
      if MaxTokens in fields {
        if MaxOutputTokens !in fields {
          fields := fields[MaxOutputTokens := fields[MaxTokens]];
        }
        fields := fields - {MaxTokens};
      }
    }
  }

  lemma MergeOne(f: Fields, rest: Fields, k: Name)
    requires k in rest
    ensures f[k := rest[k]] + (rest - {k}) == f + rest
    ensures |rest - {k}| < |rest|
  {
    assert (rest - {k}).Keys == rest.Keys - {k};
  }

  /** The effort a thinking switch stands for. A value that is neither a switch nor a name stands for none. */
  function EffortFrom(value: Json): Option<Json> {
    match value
    case Bool(b) => Some(Str(if b then "medium" else "none"))
    case Str(s) => Some(Str(s))
    case Other(_) => None
  }

  function EffortAt(f: Fields, key: Name): Option<Json> {
    if key in f then EffortFrom(f[key]) else None
  }

  /** An explicit effort, else what `thinking` stands for, else what `think` stands for. */
  function Effort(f: Fields): Option<Json> {
    if ReasoningEffort in f then Some(f[ReasoningEffort])
    else if EffortAt(f, Thinking).Some? then EffortAt(f, Thinking)
    else EffortAt(f, Think)
  }

  function ForOllama(f: Fields): Fields {
    var rest := f - {Thinking, Think, ReasoningEffort};
    if Effort(f).Some? then rest[ReasoningEffort := Effort(f).value] else rest
  }

  function ForResponses(f: Fields): Fields {
    if MaxTokens !in f then f
    else (f - {MaxTokens})[MaxOutputTokens := if MaxOutputTokens in f then f[MaxOutputTokens] else f[MaxTokens]]
  }

  function Compatible(f: Fields, endpoint: Endpoint, protocol: Protocol): Fields {
    var translated := if protocol.Ollama? then ForOllama(f) else f;
    if endpoint.Responses? then ForResponses(translated) else translated
  }

  /** The body for one target. */
  function BodyFor(f: Fields, target: Target, endpoint: Endpoint): Fields {
    Compatible(f[Model := Str(target.model)], endpoint, target.protocol)
  }

  /**
   Prepares the bodies for the targets one after the other, as the loop does when each target fails. Each is
   what its own target makes of the client payload and the overrides, however many targets came before.
   */
  method BodiesForTargets(payload: Payload, overrides: Fields, targets: seq<Target>, endpoint: Endpoint) returns (bodies: seq<Fields>)
    modifies payload
    ensures payload.fields == old(payload.fields) + overrides
    ensures |bodies| == |targets|
    ensures forall i :: 0 <= i < |targets| ==> bodies[i] == BodyFor(old(payload.fields) + overrides, targets[i], endpoint)
  {
    payload.Override(overrides);
    bodies := [];
    var t := 0;
    while t < |targets|
      invariant 0 <= t <= |targets| && |bodies| == t
      invariant payload.fields == old(payload.fields) + overrides
      invariant forall i :: 0 <= i < t ==> bodies[i] == BodyFor(old(payload.fields) + overrides, targets[i], endpoint)
    {
      var body := payload.Clone();
      body.fields := body.fields[Model := Str(targets[t].model)];
      body.ApplyCompatibility(endpoint, targets[t].protocol);
      bodies := bodies + [body.fields];
      t := t + 1;
    }
  }

  /** Every body names its own target's model, and every field without a translation is passed on untouched. */
  lemma BodyNamesItsTarget(f: Fields, target: Target, endpoint: Endpoint, key: Name)
    ensures var body := BodyFor(f, target, endpoint);
            && Model in body && body[Model] == Str(target.model)
            && (key !in {Model, Thinking, Think, ReasoningEffort, MaxTokens, MaxOutputTokens} ==>
                  (key in body <==> key in f) && (key in f ==> body[key] == f[key]))
  {
  }

  /** Translating twice is translating once. */
  lemma CompatibleIsIdempotent(f: Fields, endpoint: Endpoint, protocol: Protocol)
    ensures Compatible(Compatible(f, endpoint, protocol), endpoint, protocol) == Compatible(f, endpoint, protocol)
  {
    var once := Compatible(f, endpoint, protocol);
    var g := if protocol.Ollama? then ForOllama(f) else f;
    if protocol.Ollama? {
      assert Thinking !in once && Think !in once;
      assert ForOllama(once) == once;
    }
    if endpoint.Responses? {
      assert MaxTokens !in once;
    }
  }

  /** What a switch makes of the effort: medium or none, or the effort it names itself; nothing if it is neither a bool nor a string. */
  predicate Stands(value: Json, body: Fields) {
    match value
    case Bool(true) => ReasoningEffort in body && body[ReasoningEffort] == Str("medium")
    case Bool(false) => ReasoningEffort in body && body[ReasoningEffort] == Str("none")
    case Str(s) => ReasoningEffort in body && body[ReasoningEffort] == Str(s)
    case Other(_) => ReasoningEffort !in body
  }

  /**
   For an Ollama target the effort is, in this order: the client's own; what `thinking` stands for, if it is a bool or
   a string; what `think` stands for. A bool stands for medium or none, a string for itself, and anything else for
   nothing. Neither switch is sent.
   */
  lemma OllamaEffort(f: Fields, model: string, endpoint: Endpoint)
    ensures var body := BodyFor(f, Target(model, Ollama), endpoint);
            && Thinking !in body && Think !in body
            && (if ReasoningEffort in f then ReasoningEffort in body && body[ReasoningEffort] == f[ReasoningEffort]
                else if Thinking in f && !f[Thinking].Other? then Stands(f[Thinking], body)
                else if Think in f then Stands(f[Think], body)
                else ReasoningEffort !in body)
  {
    var g := f[Model := Str(model)];
    assert EffortAt(g, Thinking) == EffortAt(f, Thinking) && EffortAt(g, Think) == EffortAt(f, Think);
  }

  /**
   On the responses endpoint the token limit travels under its newer name, and the client's own newer field
   wins; on the other endpoint both pass as they came. An OpenAI target gets the thinking switches as they came.
   */
  lemma TokenLimitAndSwitches(f: Fields, target: Target, endpoint: Endpoint)
    ensures var body := BodyFor(f, target, endpoint);
            && (endpoint.Responses? ==>
                  && MaxTokens !in body
                  && (MaxOutputTokens in body <==> MaxTokens in f || MaxOutputTokens in f)
                  && (MaxOutputTokens in f ==> body[MaxOutputTokens] == f[MaxOutputTokens])
                  && (MaxOutputTokens !in f && MaxTokens in f ==> body[MaxOutputTokens] == f[MaxTokens]))
            && (endpoint.ChatCompletions? ==> SameAt(body, f, MaxTokens) && SameAt(body, f, MaxOutputTokens))
            && (target.protocol.OpenAI? ==> SameAt(body, f, Thinking) && SameAt(body, f, Think) && SameAt(body, f, ReasoningEffort))
  {
    var g := f[Model := Str(target.model)];
    var translated := if target.protocol.Ollama? then ForOllama(g) else g;
    assert SameAt(translated, f, MaxTokens) && SameAt(translated, f, MaxOutputTokens);
  }

  predicate SameAt(f: Fields, g: Fields, key: Name) {
    (key in f <==> key in g) && (key in f ==> f[key] == g[key])
  }
}
