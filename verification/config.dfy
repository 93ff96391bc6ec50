/** The application settings (app/config.py): the defaults, the parser of
    the allowed CORS origins and the two credential validators. Loading
    the values from the environment is not modelled; a `Settings` value is
    what that loading produced. */
module Config {
  import opened PyStrings

  /** The values `llm_provider` may take. */
  datatype LlmKind = Google | OpenAI | AzureOpenAI

  /** The values `vector_store` may take. */
  datatype StoreKind = Faiss | Pinecone | AzureSearch

  datatype Settings = Settings(
    llmProvider: LlmKind,
    googleApiKey: string,
    googleModel: string,
    openaiApiKey: string,
    openaiModel: string,
    azureOpenaiApiKey: string,
    azureOpenaiEndpoint: string,
    azureOpenaiDeploymentName: string,
    azureOpenaiApiVersion: string,
    vectorStore: StoreKind,
    faissIndexPath: string,
    pineconeApiKey: string,
    pineconeEnvironment: string,
    pineconeIndexName: string,
    azureSearchEndpoint: string,
    azureSearchApiKey: string,
    azureSearchIndexName: string,
    appName: string,
    appVersion: string,
    debug: bool,
    logLevel: string,
    host: string,
    port: int,
    chunkSize: int,
    chunkOverlap: int,
    maxChunksToRetrieve: int,
    sessionTimeout: int,
    maxConversationHistory: int,
    allowedOrigins: string)

  /** The settings when nothing is configured. */
  const Defaults: Settings := Settings(
    Google, "", "gemini-pro", "", "gpt-4", "", "", "", "2024-02-15-preview",
    Faiss, "./vector_store/faiss_index", "", "", "rag-documents", "", "", "rag-documents",
    "RAG AI Agent", "1.0.0", false, "INFO", "0.0.0.0", 8000,
    1000, 200, 5, 3600, 10,
    "http://localhost:8000,http://127.0.0.1:8000")

  /** The defaults the rest of the backend relies on. */
  lemma DefaultValues()
    ensures Defaults.llmProvider == Google && Defaults.vectorStore == Faiss
    ensures Defaults.chunkSize == 1000 && Defaults.chunkOverlap == 200
    ensures Defaults.maxChunksToRetrieve == 5
    ensures Defaults.sessionTimeout == 3600 && Defaults.maxConversationHistory == 10
  {
  }

  // ---------------------------------------------------------------------
  // Allowed origins

  /** `get_allowed_origins_list`: the comma-separated fields of
      `allowed_origins`, each stripped of surrounding whitespace. */
  function AllowedOriginsList(origins: string): (r: seq<string>)
    ensures |r| == Count(origins, ',') + 1
    ensures forall i :: 0 <= i < |r| ==> Stripped(r[i]) && ',' !in r[i]
  {
    var fields := Split(origins, ',');
    assert forall i :: 0 <= i < |fields| ==> ',' !in Strip(fields[i]) by {
      forall i | 0 <= i < |fields| ensures ',' !in Strip(fields[i]) {
        CommaFreeStrip(fields[i]);
      }
    }
    seq(|fields|, i requires 0 <= i < |fields| => Strip(fields[i]))
  }

  lemma CommaFreeStrip(s: string)
    requires ',' !in s
    ensures ',' !in Strip(s)
  {
    var sp := StripSpan(s, 0, |s|);
    assert forall k :: 0 <= k < sp.hi - sp.lo ==> Strip(s)[k] == s[sp.lo + k];
  }

  /** Origins that are already stripped and free of commas survive being
      written into the setting and parsed again. */
  lemma {:induction false} AllowedOriginsRoundTrip(os: seq<string>)
    requires |os| >= 1
    requires forall i :: 0 <= i < |os| ==> Stripped(os[i]) && ',' !in os[i]
    ensures AllowedOriginsList(Join(os, ",")) == os
  {
    SplitJoin(os, ',');
    var r := AllowedOriginsList(Join(os, ","));
    forall i | 0 <= i < |os| ensures r[i] == os[i] {
      StrippedStrip(os[i]);
    }
  }

  const LocalOrigin: string := "http://localhost:8000"
  const LoopbackOrigin: string := "http://127.0.0.1:8000"

  lemma DefaultOriginsJoined()
    ensures Defaults.allowedOrigins == Join([LocalOrigin, LoopbackOrigin], ",")
  {
    assert Join([LocalOrigin, LoopbackOrigin], ",") == LocalOrigin + "," + LoopbackOrigin;
  }

  lemma LocalOriginClean()
    ensures Stripped(LocalOrigin) && ',' !in LocalOrigin
  {
    assert !IsSpace('h') && !IsSpace('0');
  }

  lemma LoopbackOriginClean()
    ensures Stripped(LoopbackOrigin) && ',' !in LoopbackOrigin
  {
    assert !IsSpace('h') && !IsSpace('0');
  }

  /** The default setting allows exactly the two local origins. */
  lemma DefaultOrigins()
    ensures AllowedOriginsList(Defaults.allowedOrigins) == [LocalOrigin, LoopbackOrigin]
  {
    DefaultOriginsJoined();
    LocalOriginClean();
    LoopbackOriginClean();
    AllowedOriginsRoundTrip([LocalOrigin, LoopbackOrigin]);
  }

  // ---------------------------------------------------------------------
  // Credential validators

  /** Python truthiness of a string. */
  predicate Truthy(s: string) {
    s != ""
  }

  /** Python's `a and b` on strings: `a` when it is falsy, else `b`. */
  function And(a: string, b: string): (r: string)
    ensures Truthy(r) <==> Truthy(a) && Truthy(b)
  {
    if Truthy(a) then b else a
  }

  /** `validate_llm_config`: the credentials the selected provider needs
      are all present. */
  function ValidateLlmConfig(s: Settings): (ok: bool)
    ensures s.llmProvider == Google ==> (ok <==> s.googleApiKey != "")
    ensures s.llmProvider == OpenAI ==> (ok <==> s.openaiApiKey != "")
    ensures s.llmProvider == AzureOpenAI ==>
              (ok <==> s.azureOpenaiApiKey != "" && s.azureOpenaiEndpoint != "" && s.azureOpenaiDeploymentName != "")
  {
    match s.llmProvider
    case Google => Truthy(s.googleApiKey)
    case OpenAI => Truthy(s.openaiApiKey)
    case AzureOpenAI =>
      Truthy(And(And(s.azureOpenaiApiKey, s.azureOpenaiEndpoint), s.azureOpenaiDeploymentName))
  }

  /** `validate_vector_store_config`: FAISS needs nothing, the hosted
      stores need their endpoint or environment and their key. */
  function ValidateVectorStoreConfig(s: Settings): (ok: bool)
    ensures s.vectorStore == Faiss ==> ok
    ensures s.vectorStore == Pinecone ==> (ok <==> s.pineconeApiKey != "" && s.pineconeEnvironment != "")
    ensures s.vectorStore == AzureSearch ==> (ok <==> s.azureSearchEndpoint != "" && s.azureSearchApiKey != "")
  {
    match s.vectorStore
    case Faiss => true
    case Pinecone => Truthy(And(s.pineconeApiKey, s.pineconeEnvironment))
    case AzureSearch => Truthy(And(s.azureSearchEndpoint, s.azureSearchApiKey))
  }

  /** Only the credentials of the selected provider matter: settings that
      select the same provider and agree on its credentials validate alike,
      whatever the other providers' fields hold. */
  lemma LlmConfigIsLocal(s: Settings, t: Settings)
    requires s.llmProvider == t.llmProvider
    requires s.llmProvider == Google ==> s.googleApiKey == t.googleApiKey
    requires s.llmProvider == OpenAI ==> s.openaiApiKey == t.openaiApiKey
    requires s.llmProvider == AzureOpenAI ==>
               s.azureOpenaiApiKey == t.azureOpenaiApiKey && s.azureOpenaiEndpoint == t.azureOpenaiEndpoint
               && s.azureOpenaiDeploymentName == t.azureOpenaiDeploymentName
    ensures ValidateLlmConfig(s) == ValidateLlmConfig(t)
  {
  }

  /** Out of the box the store is usable but the model provider is not:
      the default Google key is empty. */
  lemma DefaultsValidity()
    ensures ValidateVectorStoreConfig(Defaults)
    ensures !ValidateLlmConfig(Defaults)
    ensures ValidateLlmConfig(Defaults.(googleApiKey := "k"))
  {
  }
}
