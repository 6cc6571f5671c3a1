/** The question pipeline of the agentic RAG application: turning the vector
    store's hits into a PDF context, turning a web search (or its failure) into a
    web context, and assembling the prompt and the provenance label of the answer.
    The vector store, the web search client and the language model are library
    calls; they appear here only through what they return. */
module RagApp {
  import opened Wrappers
  import opened Text

  /** Put between two retrieved chunks by `search_pdf`. */
  const ChunkSeparator := "\n\n---\n\n"
  /** Put before the exception text when the web search fails. */
  const WebErrorPrefix := "Web search error: "
  const DocumentHeader := "=== DOCUMENT CONTENT ===\n"
  const WebHeader := "=== WEB SEARCH RESULTS ===\n"
  /** Put between the document section and the web section. */
  const SectionSeparator := "\n\n"
  /** The context used when neither source contributed anything. */
  const NoContext := "No context available."
  /** Put between the names of the sources in the label. */
  const LabelSeparator := " & "
  /** Put before the exception text when answering a question fails. */
  const AnswerErrorPrefix := "Error: "

  const SystemPrompt :=
    "You are a helpful AI assistant. Answer the user's question based on the provided context.\n"
    + "\n"
    + "RULES:\n"
    + "1. Use the DOCUMENT CONTENT first if it contains relevant information\n"
    + "2. Use WEB SEARCH RESULTS as supplementary or if the document doesn't cover the topic\n"
    + "3. Be specific and cite which source you're using (PDF or Web)\n"
    + "4. If neither source has the answer, say so clearly\n"
    + "5. Keep answers concise but comprehensive"

  /** What asking the vector store for the question's nearest chunks gives. */
  datatype Retrieval =
    | NoStore                                 // no PDF has been processed
    | Retrieved(pageContents: seq<string>)    // the hits' page contents, in the store's order
    | RetrievalRaised(message: string)        // `similarity_search` raised

  /** What the web search client gives: the rendering `str(results)` of its
      results, or the text of the exception it raised. */
  datatype WebOutcome = Rendered(text: string) | SearchRaised(message: string)

  /** The chat messages handed to the language model. */
  datatype Message = SystemMessage(content: string) | HumanMessage(content: string)

  /** Python truthiness of an optional string: `None` and the empty string
      are the only falsy values. */
  predicate Truthy(s: Option<string>)
    ensures Truthy(s) <==> s != None && s != Some("")
  {
    s.Some? && s.value != ""
  }

  /** `search_pdf`: no context without a store, on a failed search or with no
      hits; otherwise the page contents joined by the chunk separator. */
  function SearchPdf(retrieval: Retrieval): (r: Option<string>)
    ensures r.None? <==>
              retrieval.NoStore? || retrieval.RetrievalRaised? ||
              (retrieval.Retrieved? && retrieval.pageContents == [])
  {
    match retrieval
    case NoStore => None
    case RetrievalRaised(_) => None
    case Retrieved(docs) => if docs == [] then None else Some(Join(docs, ChunkSeparator))
  }

  /** `search_web`: a failure never escapes; it becomes a non-empty message
      that starts with the error prefix and ends with the exception's text. */
  function SearchWeb(outcome: WebOutcome): (r: string)
    ensures outcome.Rendered? ==> r == outcome.text
    ensures outcome.SearchRaised? ==>
              r != "" && WebErrorPrefix <= r && r[|WebErrorPrefix|..] == outcome.message
  {
    match outcome
    case Rendered(text) => text
    case SearchRaised(message) => WebErrorPrefix + message
  }

  // Specification of `get_answer`, case by case over which contexts are truthy.

  /** The context section of the prompt: the document section first, the web
      section second, one section separator between them, or the fixed
      placeholder when neither context is truthy. */
  function ExpectedContext(pdf: Option<string>, web: Option<string>): (r: string)
    ensures r != ""
  {
    if Truthy(pdf) && Truthy(web) then
      DocumentHeader + pdf.value + SectionSeparator + WebHeader + web.value
    else if Truthy(pdf) then DocumentHeader + pdf.value
    else if Truthy(web) then WebHeader + web.value
    else NoContext
  }

  /** The provenance label: the sources whose sections are in the context,
      PDF first and Web last, or "AI" when there are none. */
  function ExpectedLabel(pdf: Option<string>, web: Option<string>): (r: string)
    ensures r in {"PDF & Web", "PDF", "Web", "AI"}
    ensures "PDF" <= r <==> Truthy(pdf)
    ensures EndsWith(r, "Web") <==> Truthy(web)
  {
    if Truthy(pdf) && Truthy(web) then "PDF & Web"
    else if Truthy(pdf) then "PDF"
    else if Truthy(web) then assert "Web"[0] != "PDF"[0]; "Web"
    else assert "AI"[0] != "PDF"[0]; "AI"
  }

  /** The two messages sent to the model: the fixed system prompt, then the
      context followed by the question. */
  function Prompt(context: string, question: string): (r: seq<Message>)
    ensures |r| == 2 && r[1].HumanMessage? && EndsWith(r[1].content, question)
  {
    [SystemMessage(SystemPrompt),
     HumanMessage("Context:\n" + context + "\n\n---\n\nQuestion: " + question)]
  }

  /** The model's reply with the source indicator appended. */
  function Labelled(reply: string, sourceLabel: string): (r: string)
    ensures reply <= r
    ensures EndsWith(r, "*Source: " + sourceLabel + "*")
  {
    reply + "\n\n*Source: " + sourceLabel + "*"
  }

  /** `get_answer`: collects the sections and the sources used step by step,
      joins them, asks the model and labels its reply. An exception from the
      model is not caught here: it comes back as `Failure`. */
  method GetAnswer(llm: seq<Message> -> Result<string>, question: string,
                   pdfContext: Option<string>, webContext: Option<string>)
    returns (messages: seq<Message>, answer: Result<string>)
    ensures messages == Prompt(ExpectedContext(pdfContext, webContext), question)
    ensures answer == match llm(messages)
                      case Success(reply) =>
                        Success(Labelled(reply, ExpectedLabel(pdfContext, webContext)))
                      case Failure(e) => Failure(e)
  {
    var contextParts: seq<string> := [];
    var sourcesUsed: seq<string> := [];

    if Truthy(pdfContext) {
      contextParts := contextParts + [DocumentHeader + pdfContext.value];
      sourcesUsed := sourcesUsed + ["PDF"];
    }
    if Truthy(webContext) {
      contextParts := contextParts + [WebHeader + webContext.value];
      sourcesUsed := sourcesUsed + ["Web"];
    }

    var context := if |contextParts| > 0 then Join(contextParts, SectionSeparator) else NoContext;
    assert context == ExpectedContext(pdfContext, webContext) by {
      if Truthy(pdfContext) && Truthy(webContext) {
        assert contextParts == [DocumentHeader + pdfContext.value, WebHeader + webContext.value];
        JoinTwo(DocumentHeader + pdfContext.value, WebHeader + webContext.value, SectionSeparator);
      } else if Truthy(pdfContext) {
        assert contextParts == [DocumentHeader + pdfContext.value];
        JoinOne(DocumentHeader + pdfContext.value, SectionSeparator);
      } else if Truthy(webContext) {
        assert contextParts == [WebHeader + webContext.value];
        JoinOne(WebHeader + webContext.value, SectionSeparator);
      }
    }
    messages := Prompt(context, question);

    var response := llm(messages);
    match response {
      case Failure(e) =>
        answer := Failure(e);
      case Success(reply) =>
        var sourceLabel := if |sourcesUsed| > 0 then Join(sourcesUsed, LabelSeparator) else "AI";
        assert sourceLabel == ExpectedLabel(pdfContext, webContext) by {
          if Truthy(pdfContext) && Truthy(webContext) {
            assert sourcesUsed == ["PDF", "Web"];
            JoinTwo("PDF", "Web", LabelSeparator);
          }
        }
        answer := Success(Labelled(reply, sourceLabel));
    }
  }

  /** Answering one question: the PDF is searched only when a store exists,
      the web is always searched, and an exception from the model becomes an
      error message instead of an answer. */
  method Respond(llm: seq<Message> -> Result<string>, question: string,
                 retrieval: Retrieval, web: WebOutcome)
    returns (response: string)
    ensures response ==
              var pdfContext := SearchPdf(retrieval);
              var webContext := Some(SearchWeb(web));
              match llm(Prompt(ExpectedContext(pdfContext, webContext), question))
              case Success(reply) => Labelled(reply, ExpectedLabel(pdfContext, webContext))
              case Failure(e) => AnswerErrorPrefix + e
  {
    var pdfContext: Option<string> := None;
    if !retrieval.NoStore? {
      pdfContext := SearchPdf(retrieval);
    }
    var webContext := SearchWeb(web);
    var messages, answer := GetAnswer(llm, question, pdfContext, Some(webContext));
    match answer {
      case Success(text) => response := text;
      case Failure(e) => response := AnswerErrorPrefix + e;
    }
  }

  // Properties of the PDF context.

  /** With at least one hit, the PDF context holds every page content in
      retrieval order, each at its offset, and its length is the contents'
      total plus one chunk separator per gap. */
  lemma SearchPdfKeepsOrder(docs: seq<string>, c: string)
    requires SearchPdf(Retrieved(docs)) == Some(c)
    ensures |c| == TotalLength(docs) + (|docs| - 1) * |ChunkSeparator|
    ensures forall i :: 0 <= i < |docs| ==>
              Offset(docs, ChunkSeparator, i) + |docs[i]| <= |c| &&
              c[Offset(docs, ChunkSeparator, i)..Offset(docs, ChunkSeparator, i) + |docs[i]|] == docs[i]
  {
    JoinLength(docs, ChunkSeparator);
    forall i | 0 <= i < |docs|
      ensures Offset(docs, ChunkSeparator, i) + |docs[i]| <= |c|
      ensures c[Offset(docs, ChunkSeparator, i)..Offset(docs, ChunkSeparator, i) + |docs[i]|] == docs[i]
    {
      JoinAt(docs, ChunkSeparator, i);
    }
  }

  /** Each page content but the last is followed by exactly one chunk
      separator; `OffsetNext` says the next page content starts right after it. */
  lemma SearchPdfSeparators(docs: seq<string>, c: string)
    requires SearchPdf(Retrieved(docs)) == Some(c)
    ensures forall i :: 0 <= i < |docs| - 1 ==>
              Offset(docs, ChunkSeparator, i) + |docs[i]| + |ChunkSeparator| <= |c| &&
              c[Offset(docs, ChunkSeparator, i) + |docs[i]|..Offset(docs, ChunkSeparator, i) + |docs[i]| + |ChunkSeparator|]
                == ChunkSeparator
  {
    forall i | 0 <= i < |docs| - 1
      ensures Offset(docs, ChunkSeparator, i) + |docs[i]| + |ChunkSeparator| <= |c|
      ensures c[Offset(docs, ChunkSeparator, i) + |docs[i]|..Offset(docs, ChunkSeparator, i) + |docs[i]| + |ChunkSeparator|]
                == ChunkSeparator
    {
      JoinAt(docs, ChunkSeparator, i);
    }
  }

  /** `search_pdf` can return an empty string rather than `None`: exactly when
      the store returns a single hit whose page content is empty. `get_answer`
      then leaves the document section out, as for `None`. */
  lemma SearchPdfEmptyContext(retrieval: Retrieval)
    ensures SearchPdf(retrieval) == Some("") <==> retrieval == Retrieved([""])
    ensures retrieval == Retrieved([""]) ==> !Truthy(SearchPdf(retrieval))
  {
    if retrieval.Retrieved? {
      JoinEmpty(retrieval.pageContents, ChunkSeparator);
    }
  }

  // Properties of the context, the prompt and the label.

  /** The document section is in the context exactly when the PDF context is
      truthy, and then it opens the context. */
  lemma DocumentSectionFirst(pdf: Option<string>, web: Option<string>)
    ensures Truthy(pdf) <==> DocumentHeader <= ExpectedContext(pdf, web)
    ensures Truthy(pdf) ==> DocumentHeader + pdf.value <= ExpectedContext(pdf, web)
  {
    var c := ExpectedContext(pdf, web);
    if !Truthy(pdf) {
      assert |c| > 4 && c[4] != DocumentHeader[4];
    }
  }

  /** The web section closes the context exactly when the web context is
      truthy; otherwise the context is what the PDF context alone gives. */
  lemma WebSectionLast(pdf: Option<string>, web: Option<string>)
    ensures Truthy(web) ==> EndsWith(ExpectedContext(pdf, web), WebHeader + web.value)
    ensures !Truthy(web) ==> ExpectedContext(pdf, web) == ExpectedContext(pdf, None)
    ensures Truthy(pdf) && Truthy(web) ==>
              ExpectedContext(pdf, web) ==
                ExpectedContext(pdf, None) + SectionSeparator + ExpectedContext(None, web)
  {
    if Truthy(web) {
      var w := WebHeader + web.value;
      var c := ExpectedContext(pdf, web);
      if Truthy(pdf) {
        var d := DocumentHeader + pdf.value + SectionSeparator;
        assert c == d + w;
        assert c[|c| - |w|..] == w;
      } else {
        assert c == w;
      }
    }
  }

  /** The placeholder is the context exactly when neither context is truthy. */
  lemma NoContextOnlyWithoutSources(pdf: Option<string>, web: Option<string>)
    ensures ExpectedContext(pdf, web) == NoContext <==> !Truthy(pdf) && !Truthy(web)
  {
    var c := ExpectedContext(pdf, web);
    if Truthy(pdf) || Truthy(web) {
      assert c[0] == '=' != NoContext[0];
    }
  }

  /** The label is one of four, and it names exactly the sections the context
      holds: "PDF" when the document section opens it, "Web" when the web
      context is truthy (its section then closes the context), and "AI" when
      the context is the placeholder. */
  lemma LabelMatchesContext(pdf: Option<string>, web: Option<string>)
    ensures ExpectedLabel(pdf, web) in {"PDF & Web", "PDF", "Web", "AI"}
    ensures ExpectedLabel(pdf, web) in {"PDF & Web", "PDF"} <==>
              DocumentHeader <= ExpectedContext(pdf, web)
    ensures ExpectedLabel(pdf, web) in {"PDF & Web", "Web"} <==>
              (Truthy(web) && EndsWith(ExpectedContext(pdf, web), WebHeader + web.value))
    ensures ExpectedLabel(pdf, web) == "AI" <==> ExpectedContext(pdf, web) == NoContext
  {
    DocumentSectionFirst(pdf, web);
    WebSectionLast(pdf, web);
    NoContextOnlyWithoutSources(pdf, web);
  }

  /** The prompt is the system prompt and one human message that opens with
      the context and ends with the question, verbatim. */
  lemma PromptShape(context: string, question: string)
    ensures var m := Prompt(context, question);
            && |m| == 2
            && m[0] == SystemMessage(SystemPrompt)
            && m[1].HumanMessage?
            && "Context:\n" + context <= m[1].content
            && EndsWith(m[1].content, "\n\n---\n\nQuestion: " + question)
  {
  }

  /** The reply is a prefix of the answer and the label can be read back from
      what follows it. */
  lemma LabelledKeepsReply(reply: string, sourceLabel: string)
    ensures reply <= Labelled(reply, sourceLabel)
    ensures var a := Labelled(reply, sourceLabel);
            |a| == |reply| + 12 + |sourceLabel| &&
            a[|reply|..] == "\n\n*Source: " + sourceLabel + "*" &&
            a[|reply| + 11..|a| - 1] == sourceLabel
  {
  }

  /** A failed web search still counts as web context: the error message is
      the web section and the answer is labelled with "Web". */
  lemma WebFailureCountsAsWeb(pdf: Option<string>, message: string)
    ensures var web := Some(SearchWeb(SearchRaised(message)));
            && Truthy(web)
            && EndsWith(ExpectedContext(pdf, web), WebHeader + WebErrorPrefix + message)
            && ExpectedLabel(pdf, web) == (if Truthy(pdf) then "PDF & Web" else "Web")
  {
  }
}
