# Retrieval-augmented chat backend, modelled in Dafny

This project models the core of a small retrieval-augmented chat service:
a FastAPI backend whose agent answers a user's question either directly or
from chunks of company documents found in a FAISS vector store.

The model covers five parts:

- **The document pipeline** (`rag_engine.py`). The text chunker `_chunk_text` slides a window of `chunk_size` characters over a normalised text. It prefers to cut at a paragraph break, then at a sentence break, and steps back by `chunk_overlap`. The pipeline also covers `get_sources`, `format_context`, the file-type dispatch and chunk documents of `process_document`, and the directory walk of `process_all_documents`.
- **The agent** (`app/agent.py`):
  - the session store `SessionMemory`: get-or-create, append with truncation, lookup, timeout cleanup;
  - the retrieval decision `_should_use_rag`;
  - the tool dispatch `_execute_tool`;
  - the control flow of `process_query`.
- **Message assembly** (`llm_providers.py`). This covers the message list of `generate_response`, the tool prompt of `generate_with_tools`, and the provider factory `get_llm_provider`.
- **Settings** (`app/config.py`). This covers the defaults, the CORS origins parser and the two credential validators.
- **The FAISS store** (`vector_stores.py`). This covers the lockstep of index vectors and document list, `add_documents`, `search` with its top-k clamp and out-of-range filter, `delete_all`, and the store factory.

Every operation is a pure function over immutable datatypes. Several inputs of the original become parameters:

- The chat model is a parameter `llm: seq<Message> -> Result<string>`.
- The retriever behind `retrieve_context` is a parameter `retrieve: string -> Result<seq<Doc>>`.
- The embedding model is a parameter `embed`, and FAISS's nearest-neighbour search is a parameter `nearest`.
- The current time (`now`, in microseconds), the fresh session id (`newId`) and the ISO time stamps are parameters.
- File contents and directory entries are inputs.

A call that may raise returns a `Result`, and the error text stands for the exception message. The fixed texts of `app/agent.py` are gathered in a `Prompts.Texts` record. The agent is stated for any texts, and `Prompts.AgentTexts` holds the exact ones.

The files are:

- `wrappers.dfy`: `Option` and `Result`.
- `py_strings.dfy`: the Python string operations the code relies on, written out with Python's semantics:
  - `str.isspace` and `strip`;
  - index normalisation of slices and of `rfind`;
  - `split` and `join`;
  - ASCII `upper` and `lower`;
  - decimal rendering;
  - lexicographic order and sorting.
- `records.dfy`: the history entries and document chunks.
- `chunker_stall.dfy`: two modules of counterexamples to the chunking loop as written, `ChunkerStall` (it never ends) and `ChunkerLoss` (it ends having dropped text).
- `config.dfy`, `chunker.dfy`, `rag_engine.dfy`, `vector_stores.dfy`, `llm_providers.dfy`, `session_memory.dfy`, `prompts.dfy` and `agent.dfy`: one module per part above.

## Model

| member | source | states |
|---|---|---|
| Config.DefaultValues | app/config.py:16-86 | The provider is Gemini and the store is FAISS. Chunks are 1000 characters with an overlap of 200. Five chunks are retrieved, sessions time out after 3600 s, and ten exchanges are kept. |
| Config.AllowedOriginsList | app/config.py:99-101 | One origin per comma-separated field: the count of commas plus one. Each origin is stripped of surrounding whitespace and holds no comma. |
| Config.AllowedOriginsRoundTrip | app/config.py:99-101 | Parsing origins that are already clean, joined with commas, gives them back: the parser inverts `",".join`. |
| Config.DefaultOrigins | app/config.py:89-92 | The default setting allows exactly `http://localhost:8000` and `http://127.0.0.1:8000`. |
| Config.ValidateLlmConfig | app/config.py:103-115 | Gemini is valid iff its key is non-empty, and OpenAI iff its key is. Azure OpenAI is valid iff key, endpoint and deployment name are all non-empty. |
| Config.And | app/config.py:110-113 | Python's `a and b` on strings is truthy iff both operands are. |
| Config.LlmConfigIsLocal | app/config.py:103-115 | Only the credentials of the selected provider decide validity. |
| Config.ValidateVectorStoreConfig | app/config.py:117-125 | FAISS is always valid. Pinecone needs key and environment; Azure Search needs endpoint and key. |
| Config.DefaultsValidity | app/config.py:103-125 | Out of the box the store configuration is valid and the model configuration is not, until a Gemini key is set. |
| Chunker.CollapseKeepsVisible | rag_engine.py:129 | The blank-line substitution only rewrites whitespace: no visible character is lost, added or reordered. |
| Chunker.PrepareKeepsVisible | rag_engine.py:128-130 | Normalising and stripping keeps exactly the visible characters of the document. |
| Chunker.LastSentenceBreak | rag_engine.py:149-153 | The highest position in the window holding ". ", "! " or "? ", or -1 when there is none. |
| Chunker.CutAtParagraph | rag_engine.py:142-146 | A paragraph break strictly after `start` inside the window wins: the cut is the last such break. |
| Chunker.CutAtSentence | rag_engine.py:147-155 | Without a paragraph break, the cut is just after the last sentence break strictly after `start`, so the punctuation stays in the chunk. |
| Chunker.CutAtWindowEnd | rag_engine.py:139-155 | With neither kind of break, the whole window is taken. |
| Chunker.SliceWithinWindow | rag_engine.py:139-157 | The text a window covers is never longer than `chunk_size`, including at negative starts under Python slicing. |
| Chunker.Step | rag_engine.py:138-162 | One iteration: the cut lies in the window, the emitted chunk is empty or non-empty and stripped and at most `chunk_size` long. The next start is the cut minus the overlap before the end, and the cut itself at the end. |
| Chunker.RunFrom | rag_engine.py:138-164 | The loop as written, for a bounded number of iterations: every chunk it emits is good, and it reports whether it reached the end. |
| Chunker.ChunkTextAsWritten | rag_engine.py:120-164 | A prepared text no longer than `chunk_size` gives exactly `[text]`, possibly empty. Longer texts give only good chunks. |
| Chunker.FixedStepAgrees | rag_engine.py:162 | Wherever the source's step already moves forward, the corrected step is the same step. |
| Chunker.FixedAdvanceCovers | rag_engine.py:139-159 | Every visible character between `start` and the window's cut is inside the chunk emitted there. |
| Chunker.PiecesCover | rag_engine.py:135-164 | The corrected loop drops no text: every visible character of the prepared text lies inside some emitted chunk. |
| Chunker.ChunkText | rag_engine.py:120-164 | The corrected `_chunk_text`: exactly `[text]` for a short text, otherwise only non-empty, stripped chunks of at most `chunk_size` characters. |
| Chunker.RunAgrees | rag_engine.py:135-164 | From any start whose every later iteration moves forward, the loop as written finishes and emits exactly the text of the corrected loop's spans, chunk for chunk. |
| Chunker.ChunkTextAgrees | rag_engine.py:120-164 | Wherever the source's loop moves forward at every iteration, `_chunk_text` as written returns exactly the corrected chunker's list and finishes. |
| Chunker.NoOverlapAgrees | rag_engine.py:135-164 | With an overlap of 0 or less every iteration moves forward, so the source's chunker and the corrected one give the same chunks on every text, within one iteration per character. |
| ChunkerStall.AsWrittenStalls | rag_engine.py:136-162 | On a 1201-character document whose only blank line is at 400, the loop as written with 1000/200 never finishes, whatever the iteration bound. |
| ChunkerStall.ZeroSizeStalls | rag_engine.py:136-162 | With `chunk_size` 0 and a non-negative overlap, the loop as written never finishes on any non-empty text. |
| ChunkerStall.CorrectedMovesOn | rag_engine.py:162 | On that document the corrected step leaves the stalled window at its cut, and every visible character is covered. |
| ChunkerLoss.AsWrittenDropsText | rag_engine.py:136-162 | On `"a\n\nbcdefghijklmnop"` with 10/2 the loop as written steps back to start -1 and then finishes with the chunks `"a"`, `"fghijklmno"` and `"nop"`: `"bcde"` is in none of them. |
| ChunkerLoss.CorrectedKeepsText | rag_engine.py:135-164 | On that document the corrected loop has `"b"`, the first lost character, inside one of its chunks. |
| RagEngine.GetSources | rag_engine.py:214-230 | The result is strictly sorted, so it has no duplicates. It holds exactly the non-empty sources of the chunks. |
| RagEngine.GetSourcesIsSortedSet | rag_engine.py:224-230 | Any strictly sorted list of exactly those sources is the result: it is `sorted(set(...))`. |
| RagEngine.FormatContext | rag_engine.py:189-212 | `""` exactly when there are no chunks. Otherwise the text starts with the first chunk's block. |
| RagEngine.FormatContextAppend | rag_engine.py:202-212 | One more chunk appends `"\n---\n"` and its block, numbered after the others, and leaves the earlier text as it was. |
| RagEngine.FormatContextSingle | rag_engine.py:203-212 | A single chunk is formatted as its numbered block alone, with the source defaulting to "Unknown". |
| RagEngine.ExtOfJoin | rag_engine.py:246-251 | The extension of `os.path.join(dir, name)` is the extension of `name`: the walk and `process_document` see the same file type. |
| RagEngine.ExtOfName | rag_engine.py:52 | A name made of a stem that is not only dots, a dot and a suffix without dots has that dot and suffix as its `splitext` extension. |
| RagEngine.KindOf | rag_engine.py:52-61 | A path is accepted exactly when its lower-cased extension is `.pdf`, `.md`, `.markdown` or `.txt`, with the matching kind. Otherwise the error names the extension. |
| RagEngine.KindIgnoresCase | rag_engine.py:52-61 | Extensions are read case-insensitively: a name is of the same kind as the name with its suffix lower-cased. |
| RagEngine.BuildDocuments | rag_engine.py:66-78 | One document per chunk in order: document `i` carries chunk `i`, the source name, the file path, `chunk_index = i` and `total_chunks = len(chunks)`. |
| RagEngine.ProcessDocument | rag_engine.py:29-84 | A missing file and an unsupported type fail with the source's messages, and a failed read propagates. On success the count is the number of chunks, and exactly their documents are appended to the store. The source defaults to the base name. |
| RagEngine.ProcessAllVisits | rag_engine.py:242-253 | The walk records a count for exactly the regular files with a supported extension. |
| RagEngine.ProcessAllCounts | rag_engine.py:255-260 | Each visited file's count is its number of chunks when it could be read and 0 when reading it failed. |
| RagEngine.ProcessAllDocuments | rag_engine.py:232-262 | The walk only appends to the store and keeps index and documents in lockstep. |
| VectorStores.Embeddings | vector_stores.py:133-136 | One embedding per document, of its content or of "" when it has none, in order. |
| VectorStores.AddDocuments | vector_stores.py:124-148 | An empty batch changes nothing. Otherwise the documents are appended in order with one vector per document, and lockstep is preserved. |
| VectorStores.AddDocumentsConcat | vector_stores.py:124-148 | Adding two batches in turn is adding their concatenation. |
| VectorStores.DeleteAll | vector_stores.py:178-184 | Index and document list are both empty afterwards. |
| VectorStores.Collect | vector_stores.py:168-173 | Each result is a stored document with a score attached. A position before the start of the list raises, as a Python index does. |
| VectorStores.CollectSkipsPastEnd | vector_stores.py:169-170 | Positions past the end of the document list are skipped and nothing else: the answer is that of the hits before the end. |
| VectorStores.CollectInRange | vector_stores.py:169-173 | When every position names a stored document, result `j` is the document at hit `j` with its score. |
| VectorStores.Search | vector_stores.py:150-176 | An empty index answers `[]`. Otherwise the index is asked for the `min(top_k, ntotal)` nearest vectors and their documents are collected. |
| VectorStores.SearchWithinTopK | vector_stores.py:156-173 | With an index that keeps its contract and a store in lockstep, a search succeeds with at most `top_k` results, each a stored document plus a score. |
| VectorStores.SearchAfterDeleteAll | vector_stores.py:156-158 | After `delete_all` every search answers `[]`. |
| VectorStores.GetVectorStore | vector_stores.py:435-448 | Only FAISS is available; every other kind raises. |
| VectorStores.FactoryImpliesValid | vector_stores.py:435-448 | A store the factory hands out has a configuration that validates. |
| LlmProviders.HistoryMessages | llm_providers.py:81-86 | A user entry becomes a human message and an assistant entry an AI message; other roles are dropped, and no history message is a system message. |
| LlmProviders.HistoryMessagesConcat | llm_providers.py:81-86 | The conversion goes entry by entry in order. |
| LlmProviders.HistoryMessagesSingle | llm_providers.py:83-86 | A single entry maps to a human message, an AI message or nothing, by its role. |
| LlmProviders.BuildMessages | llm_providers.py:68-88 | The list starts with a system message iff one is given, then the converted history, and ends with the prompt as a human message. Its length is that count. |
| LlmProviders.ToolPrompt | llm_providers.py:112-117 | The prompt, then `"\n\nAvailable tools:\n"`, then the tool lines. |
| LlmProviders.ToolPromptLines | llm_providers.py:112-117 | For tools without line breaks, splitting the tail at newlines gives back one `"- name: description"` line per tool. |
| LlmProviders.ToolMessages | llm_providers.py:106-118 | The given system message first iff it is non-empty, then the tool prompt as a human message. |
| LlmProviders.GenerateWithTools | llm_providers.py:97-128 | Succeeds iff the model call does, returns its reply, and never reports a tool call. |
| LlmProviders.GetLlmProvider | llm_providers.py:315-328 | Only "google" yields a provider, configured with the Gemini model and key; every other value raises. |
| LlmProviders.FactoryIgnoresValidation | llm_providers.py:315-328 | The factory hands out a Gemini provider even when the credential validator rejects the settings. |
| SessionMemory.GetOrCreateSession | app/agent.py:25-40 | A known, non-empty id keeps its history and only refreshes its access time. Otherwise a session with empty history is created under the given id, or under a fresh one when the id is missing or "". No other session changes. |
| SessionMemory.ReopenFindsSession | app/agent.py:25-40 | Reopening the returned id later finds the same session with the same history and creation time. |
| SessionMemory.TruncateKeepsRecent | app/agent.py:58-62 | The kept history is the most recent suffix, at most `2 * max` entries long. |
| SessionMemory.AddMessage | app/agent.py:42-62 | An unknown id first gets a session created at `now`: under the id itself, or under a fresh id when it is "", in which case `add_message` raises. The key set grows by exactly that session. The turn is appended and the history truncated, and no other session changes. |
| SessionMemory.TruncateEndsWith | app/agent.py:52-62 | With a limit that is not negative, the entry just appended survives truncation as the last one. |
| SessionMemory.AddMessageBounded | app/agent.py:58-62 | With a positive limit, a history holds at most `2 * max` entries after `add_message`. |
| SessionMemory.BoundedInvariant | app/agent.py:25-62 | That bound on every history is kept by both `get_or_create_session` and `add_message`. |
| SessionMemory.GetHistory | app/agent.py:64-69 | An unknown id reads `[]`, a known one its history. |
| SessionMemory.HistoryAfterAdd | app/agent.py:52-69 | With a limit that is not negative, a message just added is the last entry read back. |
| SessionMemory.CleanupOldSessions | app/agent.py:71-87 | Removes exactly the sessions idle for longer than the timeout, keeps the others unchanged, and returns how many went. |
| SessionMemory.IdleExactlyTimeoutKept | app/agent.py:78 | The comparison is strict: a session idle for exactly the timeout stays. |
| SessionMemory.CleanupIdempotent | app/agent.py:71-87 | A second cleanup at the same time removes nothing. |
| Prompts.AgentSystemsGiven | app/agent.py:137-234 | The agent's four system messages are non-empty, so every call of the agent starts with a system message. |
| Agent.ShouldUseRag | app/agent.py:134-147 | A failing decision call means search. |
| Agent.ShouldUseRagIff | app/agent.py:140-143 | Trimming does not matter: the decision is to search iff SEARCH occurs, in any letter case, anywhere in the model's reply. |
| Agent.ExecuteTool | app/agent.py:149-164 | The search tool returns the formatted context, the sources and the number of chunks for the `query` argument, or "" without one, and a retriever error propagates. Any other name yields the "Unknown tool" error entry. |
| Agent.UnknownToolNoRetrieval | app/agent.py:162-164 | An unknown tool does no retrieval: its result does not depend on the retriever. |
| Agent.Recent | app/agent.py:212 | `history[-10:]` is the latest ten entries, or all of them when there are fewer. |
| Agent.CallSystem | app/agent.py:205-234 | The system message of the answering call: the direct one without retrieval, the no-documents notice when retrieval found nothing, and the context one when chunks were found. |
| Agent.CallPrompt | app/agent.py:209-240 | The prompt of the answering call always contains the question. It is the context prompt with the formatted chunks when chunks were found, and the bare question otherwise. |
| Agent.CallMessages | app/agent.py:205-240 | The answering call starts with that system message when it is non-empty, then the latest history, and ends with the prompt as a human message. |
| Agent.AgentCallHasSystem | app/agent.py:205-240 | With the agent's texts every answering call starts with its system message. |
| Agent.Answer | app/agent.py:196-240 | Succeeds exactly when the retriever returns (if consulted) and the answering call succeeds. The messages recorded as sent are that call's, and the answer is the model's reply to them. With retrieval the sources are those of the chunks found; without it there are none. |
| Agent.DirectNoRetrieval | app/agent.py:230-240 | Without retrieval the answer does not depend on the retriever. |
| Agent.Decide | app/agent.py:119-147 | The decision call is the decision system message and prompt with no history. The agent searches exactly when that call fails or its reply contains SEARCH in any letter case. |
| Agent.Begin | app/agent.py:181-185 | Opening the session and recording the user's turn adds only that id and changes no other session. The session's history becomes its previous history (empty for a new session) with the user's turn appended, then truncated. |
| Agent.BeginEndsWithUser | app/agent.py:185 | With a limit that is not negative the session then ends with the user's turn. |
| Agent.Record | app/agent.py:242-262 | On success the assistant's turn is appended to the session's history, which is then truncated, and the answer is returned with its sources and the decision. On error the sessions are left as they were, and the apology is returned with no sources, `used_rag` false and the error. |
| Agent.RecordEndsWithAnswer | app/agent.py:243 | A recorded answer directly follows the entry that ended the history. |
| Agent.ProcessQuery | app/agent.py:166-262 | The reply carries the resolved session id. There is no error exactly when the retriever returns (if the decision was to search) and the answering call succeeds. The answering call is then the one built from the latest ten entries of the history with the user's turn. The reply is the model's answer, with the decision as `used_rag` and the sources of the chunks found (none without retrieval). An error reply has the apology, no sources and `used_rag` false. |
| Agent.ProcessQueryHistory | app/agent.py:181-243 | Afterwards the session holds its earlier history with the user's turn, truncated, followed by the answer (truncated again) exactly when there was no error. |
| Agent.ProcessQueryOthersUntouched | app/agent.py:181-262 | A query adds at most its own session and leaves every other session as it was. |
| Agent.ProcessQueryRecordsTurns | app/agent.py:181-262 | With a limit that is not negative the session ends with the user's turn, followed by the assistant's answer exactly when there was no error. |
| Agent.ProcessQuerySent | app/agent.py:188-240 | The model sees at most twelve messages: the system message, the latest ten entries of the session's history with the user's turn, and the prompt. With a limit that is not negative the question comes just before the prompt as the latest history entry. |
| Agent.CallAfterUser | app/agent.py:185-212 | Any call ending with the latest history of a session whose last entry is the user's turn has the question just before the prompt. |
| Agent.AnswerShaped | app/agent.py:196-240 | Whatever the decision, a returned answer came from a call ending with the latest history and the prompt, at most twelve messages long. |

## Left out

- File reading (PDF, Markdown and text extraction), the pickle and FAISS index files, and directory listing. These are I/O: file contents, existence and directory entries are inputs (`extracted`, `present`, `Entry`).
- The embedding model, FAISS's nearest-neighbour search and the chat model's `invoke`. These are foreign calls and become function parameters. `SearchWithinTopK` states the search bound under the index's own contract, at most `k` rows of existing positions.
- `retrieve_context` (rag_engine.py:166-187) is only a call of the store's search with `max_chunks_to_retrieve`. The agent uses it as the `retrieve` parameter.
- The score arithmetic `1 / (1 + distance)` and its `:.2f` formatting, because they are floating point. A score is kept as the string that would be printed.
- Unicode case mapping. `Upper` and `Lower` map ASCII letters only, while Python maps all of Unicode.
- Chunker.ChunkText: requires `chunk_size > 0`. With 0 or less the source's loop never ends, as `ChunkerStall.ZeroSizeStalls` shows.
- RagEngine.ProcessDocument: requires `chunk_size > 0` and uses the corrected chunker, for the same reason. Its chunks therefore differ from the source's also on some inputs where the source's loop ends, those where it drops text (`ChunkerLoss.AsWrittenDropsText`). They agree wherever every iteration moves forward (`Chunker.ChunkTextAgrees`).
- RagEngine.ProcessDocument: the embedding model and `index.add` (vector_stores.py:136-139) never fail in the model. In the source either can raise out of `process_document`, so its success condition holds only for a store that cannot fail. Saving cannot fail in either: the source catches and logs every error of `_save_index` and `_save_documents` (vector_stores.py:107-122).
- RagEngine.ProcessAllCounts: for the same reason the model records 0 only for a file it could not read. The source also records 0 when `add_documents` raises (rag_engine.py:255-258).
- RagEngine.Basename: models POSIX paths, with `/` as the only separator, as does `RagEngine.PathJoin`. The Windows forms of `os.path` are not modelled.
- LlmProviders.FactoryIgnoresValidation: assumes that the constructor `GoogleGeminiProvider()` (llm_providers.py:53-64) accepts an empty key. It only hands the key to the LangChain client, which is not part of this model.
- Chunker.RunFrom: bounded by a fuel count of iterations, because the loop as written need not end. `finished` reports whether it did within the bound.
- Chunker.ChunkTextAsWritten: bounded by a fuel count of iterations, for the same reason.
- The dead code in string literals: the Pinecone, Azure AI Search, OpenAI and Azure OpenAI classes.
- The `TOOLS` constant of the agent (app/agent.py:94-111). It is not used by `process_query`, and the tool prompt is modelled for any tool list.
- Environment and `.env` loading, logging, the FastAPI wiring in app/main.py, and the driver script app/process_documents.py.
- `datetime.now()`: the agent's calls of it within one query are one `now` parameter, and the stamps of the two history entries are parameters.
- `uuid.uuid4()`: becomes the `newId` parameter.
- The agent's texts are a parameter of the agent's functions, so that the control flow is stated for any texts. `Prompts.AgentTexts` holds the exact texts of app/agent.py.
- SessionMemory.AddMessageBounded: states the bound only for `max_conversation_history > 0`. With 0 the source's `history[-0:]` keeps the whole history, and the model reproduces that.
- Agent.ProcessQueryRecordsTurns: requires a limit that is not negative. With a negative limit `history[-2*max:]` drops the oldest `2*|max|` entries, which can drop the question itself.
- Agent.BeginEndsWithUser: requires a limit that is not negative, for the same reason.
- Agent.ProcessQuerySent: states its question clause only for a limit that is not negative, for the same reason.
- SessionMemory.TruncateEndsWith: requires a limit that is not negative, for the same reason: with a negative limit the entry just appended can be dropped.
- `AIAgent.__init__`, `RAGEngine.__init__` and `cleanup_sessions`: construction and a one-line delegation to `cleanup_old_sessions`.

## Findings

| source | as written | input that shows it | evidently intended | confidence | as-written member | corrected member |
|---|---|---|---|---|---|---|
| rag_engine.py:144-162 | When the chosen break lies within `chunk_overlap` after `start`, `start = end - chunk_overlap` does not move forward. When it stays equal, the same window is cut again forever. | A text of 400 visible characters, a blank line and 799 more characters, with the defaults 1000/200: `start` goes 0, 200, 200, … | Every iteration moves `start` forward, so the loop ends and covers the whole text. | not executed | ChunkerStall.AsWrittenStalls | Chunker.ChunkText |
| rag_engine.py:139-162 | When the step back goes below 0, Python reads the slice bounds from the end of the text. The window is empty and the next start jumps ahead, skipping text, and the loop still ends. | `"a\n\nbcdefghijklmnop"` with 10/2: `start` goes 0, -1, 7, 15, 25 and `"bcde"` is in no chunk | Every visible character of the text lies in some chunk. | not executed | ChunkerLoss.AsWrittenDropsText | Chunker.ChunkText |
| rag_engine.py:125-162 | `chunk_size = 0` gives an empty window whose cut is `start` itself, so `start` steps back by the overlap and the loop never ends. | `chunk_size = 0`, `chunk_overlap = 200`, any non-empty text | A positive chunk size is required. | not executed | ChunkerStall.ZeroSizeStalls | Chunker.ChunkText |
