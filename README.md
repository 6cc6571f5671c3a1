# Agentic RAG question pipeline — Dafny model

This project models the part of the agentic RAG application (`agentic_rag_app.py`) that the
application itself decides: how one question's answer is assembled from two sources.

- `search_pdf` turns the vector store's hits into an optional PDF context. It returns nothing
  when there is no store, when the search raises, or when there are no hits. Otherwise it joins
  the page contents with `"\n\n---\n\n"`, keeping the store's order.
- `search_web` turns the web search into a web context. A failure never escapes; it becomes
  `"Web search error: " + message`.
- `get_answer` builds the context from the sections whose contexts are truthy: the document
  section first, then the web section, joined by `"\n\n"`. It falls back to
  `"No context available."` when there are no sections. It then builds the system and human
  messages and asks the model. Finally it appends `*Source: PDF*`, `*Source: Web*`,
  `*Source: PDF & Web*` or `*Source: AI*` to the reply.
- The question handler calls the two searches and `get_answer`, and turns an exception from
  the model into `"Error: " + message`.

The vector store, the web search client and the language model are library code that the
application only calls. They appear here as their outputs:

- the retrieval is `NoStore`, `Retrieved(pageContents)` or `RetrievalRaised(message)`;
- the web search is `Rendered(str(results))` or `SearchRaised(message)`;
- the model is a function from the message list to `Success(reply)` or `Failure(message)`.

Python's optional strings are `Option<string>`, and "truthy" is `Some(s)` with `s != ""`.

Files:

- `Wrappers.dfy` holds `Option` and `Result`.
- `Text.dfy` models Python's `str.join` and proves where each part lands in the joined string.
- `RagApp.dfy` holds the pipeline. `GetAnswer` is a method that appends to its section and
  source lists step by step, as the source does. It is proved against `ExpectedContext` and
  `ExpectedLabel`, which state the result case by case over the four truthiness combinations.
  The lemmas after it state what those functions promise.

## Model

| member | source | states |
|---|---|---|
| Text.Join | agentic_rag_app.py:159 | Python's `sep.join(parts)`, used for the chunks (line 159), the sections (line 191) and the label (line 210); the first part opens the result |
| Text.JoinLength | agentic_rag_app.py:159 | a join of n ≥ 1 parts is as long as the parts together plus n − 1 separators |
| Text.JoinAt | agentic_rag_app.py:159 | in a join, part i starts at the total length of the earlier parts plus one separator per earlier part, and exactly one separator follows it unless it is the last part, so order is kept and nothing else is inserted |
| Text.JoinEmpty | agentic_rag_app.py:159 | with a non-empty separator, a join is empty exactly when there are no parts or the only part is empty |
| Text.JoinOne | agentic_rag_app.py:191 | joining one section adds no separator |
| Text.JoinTwo | agentic_rag_app.py:191 | joining two sections (or two source names at line 210) puts exactly one separator between them |
| RagApp.SearchPdf | agentic_rag_app.py:149-163 | the PDF context is absent exactly when there is no store, the search raised, or there are no hits |
| RagApp.SearchPdfKeepsOrder | agentic_rag_app.py:155-160 | with at least one hit, the PDF context holds every page content in retrieval order, page i after the earlier pages and one separator each, and its length is the pages' total plus n − 1 separators |
| RagApp.SearchPdfSeparators | agentic_rag_app.py:159 | every page content but the last is followed in the PDF context by exactly one "\n\n---\n\n" |
| Text.OffsetNext | agentic_rag_app.py:159 | the next part of a join starts one part and one separator after the previous one |
| RagApp.SearchPdfEmptyContext | agentic_rag_app.py:156-160 | the PDF context is the empty string (not absent) exactly when the store returns a single hit with empty content, and it is then not truthy |
| RagApp.SearchWeb | agentic_rag_app.py:166-173 | rendered results pass through unchanged; a failure becomes a non-empty string that starts with "Web search error: " and ends with the exception's message |
| RagApp.Truthy | agentic_rag_app.py:183-187 | Python's truthiness test on an optional string: `None` and `""` are the only falsy values |
| RagApp.ExpectedContext | agentic_rag_app.py:183-191 | the context, case by case over which contexts are truthy; it is never empty |
| RagApp.ExpectedLabel | agentic_rag_app.py:181-210 | the label, case by case: one of "PDF & Web", "PDF", "Web", "AI"; it starts with PDF exactly when the PDF context is truthy and ends with Web exactly when the web context is truthy |
| RagApp.Prompt | agentic_rag_app.py:202-205 | the message list: two messages, the second a human message that ends with the question verbatim |
| RagApp.Labelled | agentic_rag_app.py:211 | the answer string: the reply is a prefix of it and it ends with "*Source: " plus the label plus "*" |
| RagApp.GetAnswer | agentic_rag_app.py:176-211 | the messages are the system prompt plus the human message built around the context that `ExpectedContext` gives; the answer is the model's reply followed by the label that `ExpectedLabel` gives; an exception from the model propagates |
| RagApp.Respond | agentic_rag_app.py:291-308 | the response is the labelled answer built from the searched PDF context and the always-present web context, or "Error: " plus the message when the model raises |
| RagApp.DocumentSectionFirst | agentic_rag_app.py:183-185 | the context opens with the document header exactly when the PDF context is truthy, and then the header and the PDF context open it |
| RagApp.WebSectionLast | agentic_rag_app.py:187-191 | when the web context is truthy the web section closes the context, after the document section and one "\n\n" if both are present; otherwise the context is what the PDF context alone gives |
| RagApp.NoContextOnlyWithoutSources | agentic_rag_app.py:191 | the context is "No context available." exactly when neither context is truthy |
| RagApp.LabelMatchesContext | agentic_rag_app.py:181-210 | the label is one of "PDF & Web", "PDF", "Web", "AI"; it mentions PDF exactly when the document section opens the context, it mentions Web exactly when the web context is truthy, and then the web section closes the context, and it is "AI" exactly when the context is the placeholder |
| RagApp.PromptShape | agentic_rag_app.py:193-205 | there are two messages: the fixed system prompt, then a human message that opens with "Context:\n" and the context and ends with "\n\n---\n\nQuestion: " and the question |
| RagApp.LabelledKeepsReply | agentic_rag_app.py:211 | the answer is the reply, then exactly "\n\n*Source: " plus the label plus "*", so the label can be read back from the text after the reply |
| RagApp.WebFailureCountsAsWeb | agentic_rag_app.py:172-210 | a failed web search is truthy web context: its error message closes the context and the label is "Web", or "PDF & Web" when the PDF context is truthy |

## Left out

- Streamlit user interface: page layout, sidebar inputs, status panels, chat history rendering, buttons and the API-key checks that stop the script (lines 28-96, 214-289, 302-304, 307-324; the `"Error: "` message of lines 305-306 is modelled in `Respond`). This is presentation and session state.
- `process_pdf` and `get_embeddings`: temporary files, PDF text extraction, chunking and index construction are done by library code (PDF loader, text splitter, embedding model, FAISS) whose behaviour is not part of this model.
- Ranking inside `similarity_search`: the hits are taken as a given sequence in the store's order, and `k = 4` only bounds what the store returns.
- The Tavily client call and the `str(results)` rendering: taken as the string `Rendered(text)`.
- The `ChatOpenAI` client set-up and the network call: the model is a function parameter. The client's construction can also raise; that failure is not modelled.
- The `st.error` messages shown when PDF search fails: the model keeps only the `None` result.
- Chunk overlap, cosine-score ordering, dropping segments whose embedding fails, degradation flags, errors for empty completions and timestamped answer records: the application does not implement them, so they are not modelled.
