/** The state app.py keeps between reruns (app.py:76-81) and the actions
    that change it: checking the key, uploading and deleting documents,
    clearing everything, and asking a question. The network and the text
    extractors are parameters: `status` is what the key check got back,
    `extract` what a reader produced, `respond` what the chat service
    answers to a request. */
module Session {
  import opened Text
  import opened Filtering
  import opened Chunker
  import opened Documents
  import opened Ranking
  import opened Retrieval
  import opened Citations

  datatype Role = User | Assistant

  /** `{"role": ..., "content": ...}` */
  datatype Turn = Turn(role: Role, content: string)

  /** The outcome of the chat-completion request of app.py:295-303: an
      HTTP status with the answer text, or an exception with its text. */
  datatype Response = Http(status: nat, answer: string) | Raised(message: string)

  /** What uploading one file did (app.py:149, 173, 175). */
  datatype UploadResult = Skipped | Loaded(chunkCount: nat) | ReadFailed

  const Success := 200

  /** "API call failed: " */
  const CallFailed := "API调用失败: "

  /** "An error occurred: " */
  const ErrorOccurred := "发生错误: "

  /** The assistant turn recorded for a response (app.py:301-322). */
  function Reply(response: Response, ranked: seq<Match>): string {
    match response
    case Http(status, answer) =>
      if status == Success then WithCitations(answer, ranked) else CallFailed + DecimalString(status)
    case Raised(message) => ErrorOccurred + message
  }

  /** app.py:301-322: the citations are appended only after a successful
      call; a failed call or an exception yields its message instead. */
  method ReplyFor(response: Response, ranked: seq<Match>) returns (reply: string)
    ensures reply == Reply(response, ranked)
  {
    match response
    case Http(status, answer) =>
      if status == Success {
        reply := AppendCitations(answer, ranked);
      } else {
        reply := CallFailed + DecimalString(status);
      }
    case Raised(message) =>
      reply := ErrorOccurred + message;
  }

  /** A successful answer is kept in front of its citations; a failed
      call reports its status, which can be read back from the reply; an
      exception reports its text. */
  lemma {:induction false} ReplyCases(response: Response, ranked: seq<Match>)
    ensures var r := Reply(response, ranked);
      match response
      case Http(status, answer) =>
        if status == Success then
          |answer| <= |r| && r[..|answer|] == answer && (|ranked| == 0 <==> r == answer)
        else
          |CallFailed| < |r| && r[..|CallFailed|] == CallFailed
          && IsDigits(r[|CallFailed|..]) && DecimalValue(r[|CallFailed|..]) == status
      case Raised(message) => r == ErrorOccurred + message
  {
    var r := Reply(response, ranked);
    match response
    case Http(status, answer) =>
      if status == Success {
        if |ranked| > 0 {
          assert r == answer + (Header + CitationLines(Top(ranked, MaxCitations)));
          assert |r| > |answer|;
        }
      } else {
        DecimalRoundTrip(status);
        assert r[|CallFailed|..] == DecimalString(status);
      }
    case Raised(message) =>
  }

  /** The user message of app.py:271-276: a "document content" header,
      the context, a blank line, "question:" and the question, a blank
      line and the closing instruction. */
  const PromptHead := "文档内容：\n"
  const PromptMiddle := "\n\n问题："
  const PromptTail := "\n\n请基于以上文档内容回答问题："

  function UserPrompt(context: string, question: string): string {
    PromptHead + context + PromptMiddle + question + PromptTail
  }

  /** The request carries the context and the question at known places. */
  lemma {:induction false} UserPromptParts(context: string, question: string)
    ensures var p, c, q := UserPrompt(context, question), |PromptHead|, |PromptHead| + |context| + |PromptMiddle|;
      && |p| == q + |question| + |PromptTail|
      && p[c..c + |context|] == context
      && p[q..q + |question|] == question
  {
    var p := UserPrompt(context, question);
    var c, q := |PromptHead|, |PromptHead| + |context| + |PromptMiddle|;
    assert p == (PromptHead + context) + (PromptMiddle + question + PromptTail);
    assert p[c..c + |context|] == (PromptHead + context)[c..];
    assert p == (PromptHead + context + PromptMiddle) + question + PromptTail;
  }

  /** `names` without `name`, in the same order (Python's `del d[name]`
      on the key order). */
  function Without(names: seq<string>, name: string): (r: seq<string>)
    ensures |r| <= |names|
  {
    if |names| == 0 then []
    else Without(names[..|names| - 1], name) + if names[|names| - 1] == name then [] else [names[|names| - 1]]
  }

  predicate Distinct(names: seq<string>) {
    forall i, j :: 0 <= i < j < |names| ==> names[i] != names[j]
  }

  /** Removing a name keeps every other name, in order, and no duplicate
      appears. */
  lemma {:induction false} WithoutSpec(names: seq<string>, name: string)
    ensures forall n :: n in Without(names, name) <==> n in names && n != name
    ensures Distinct(names) ==> Distinct(Without(names, name))
  {
    if |names| > 0 {
      var init, last := names[..|names| - 1], names[|names| - 1];
      WithoutSpec(init, name);
      assert names == init + [last];
      if Distinct(names) {
        assert Distinct(init) by {
          forall i, j | 0 <= i < j < |init| ensures init[i] != init[j] {
            assert init[i] == names[i] && init[j] == names[j];
          }
        }
        assert last !in init by {
          forall i | 0 <= i < |init| ensures init[i] != last {
            assert init[i] == names[i];
          }
        }
        var w := Without(names, name);
        var w0 := Without(init, name);
        forall i, j | 0 <= i < j < |w| ensures w[i] != w[j] {
          if j == |w0| {
            assert w[i] == w0[i];
            assert w0[i] in init;
          } else {
            assert w[i] == w0[i] && w[j] == w0[j];
          }
        }
      }
    }
  }

  /** Deleting a name that is not listed changes nothing. */
  lemma {:induction false} WithoutAbsent(names: seq<string>, name: string)
    requires name !in names
    ensures Without(names, name) == names
  {
    if |names| > 0 {
      var init := names[..|names| - 1];
      assert names == init + [names[|names| - 1]];
      WithoutAbsent(init, name);
    }
  }

  /** Deleting the name at position `i` of a duplicate-free key order
      closes the gap and keeps every other name in its order, as `del`
      does to the keys of a dict. */
  lemma {:induction false} WithoutAt(names: seq<string>, name: string, i: nat)
    requires Distinct(names) && i < |names| && names[i] == name
    ensures Without(names, name) == names[..i] + names[i + 1..]
  {
    var n := |names| - 1;
    var init, last := names[..n], names[n];
    assert names == init + [last];
    if i == n {
      assert name !in init by {
        forall k | 0 <= k < |init| ensures init[k] != name {
          assert init[k] == names[k];
        }
      }
      WithoutAbsent(init, name);
      assert names[i + 1..] == [];
    } else {
      assert last != name;
      assert Distinct(init) by {
        forall a, b | 0 <= a < b < |init| ensures init[a] != init[b] {
          assert init[a] == names[a] && init[b] == names[b];
        }
      }
      assert init[i] == name;
      WithoutAt(init, name, i);
      assert init[..i] == names[..i];
      assert init[i + 1..] + [last] == names[i + 1..];
    }
  }

  /** The store's invariant: the key order lists each stored name once
      and no other, and every record is the one an upload builds from its
      content. */
  ghost predicate Stored(names: seq<string>, documents: map<string, Document>) {
    && Distinct(names)
    && (forall n :: n in documents <==> n in names)
    && Records(documents)
  }

  /** Every record is the one an upload builds from its content. */
  ghost predicate Records(documents: map<string, Document>) {
    forall n :: n in documents ==> Consistent(n, documents[n])
  }

  /** Adding a new name with its record keeps the invariant. */
  lemma {:induction false} StoredAdd(names: seq<string>, documents: map<string, Document>, name: string, content: string)
    requires Stored(names, documents) && name !in documents
    ensures Stored(names + [name], documents[name := Load(name, content)])
  {
    var ns := names + [name];
    forall i, j | 0 <= i < j < |ns| ensures ns[i] != ns[j] {
      if j == |names| {
        assert ns[i] == names[i];
        assert names[i] in documents;
      } else {
        assert ns[i] == names[i] && ns[j] == names[j];
      }
    }
  }

  /** Removing a stored name and its record keeps the invariant. */
  lemma {:induction false} StoredRemove(names: seq<string>, documents: map<string, Document>, name: string)
    requires Stored(names, documents)
    ensures Stored(Without(names, name), documents - {name})
  {
    WithoutSpec(names, name);
  }

  class State {
    /** The keys of `st.session_state.documents`, in insertion order. */
    var names: seq<string>
    /** `st.session_state.documents` */
    var documents: map<string, Document>
    /** `st.session_state.messages` */
    var messages: seq<Turn>
    /** `st.session_state.api_key_valid` */
    var keyValid: bool
    /** `st.session_state.api_key` */
    var apiKey: string

    ghost predicate Valid()
      reads this
    {
      Stored(names, documents)
    }

    /** A fresh session (app.py:76-81). */
    constructor()
      ensures Valid()
      ensures names == [] && documents == map[] && messages == []
      ensures !keyValid && apiKey == ""
    {
      names := [];
      documents := map[];
      messages := [];
      keyValid := false;
      apiKey := "";
    }

    /** The key check of app.py:95-134. An empty key changes nothing;
        otherwise the key counts as valid exactly when the test request
        returned status 200 (`None` stands for an exception), and only
        then is it remembered. */
    method CheckKey(key: string, status: Option<nat>)
      modifies this`keyValid, this`apiKey
      ensures |key| == 0 ==> keyValid == old(keyValid) && apiKey == old(apiKey)
      ensures |key| > 0 ==> (keyValid <==> status == Some(Success))
      ensures apiKey == if |key| > 0 && status == Some(Success) then key else old(apiKey)
    {
      if |key| > 0 {
        if status == Some(Success) {
          keyValid := true;
          apiKey := key;
        } else {
          keyValid := false;
        }
      }
    }

    /** One file of the upload loop, app.py:149-175. A name already
        stored is skipped; otherwise the reader chosen by the name
        produces the text, or fails and nothing is stored; on success
        exactly one record is added, at the end of the key order. */
    method Upload(name: string, extract: Reader -> Option<string>) returns (result: UploadResult)
      requires Valid()
      modifies this`names, this`documents
      ensures Valid()
      ensures name in old(documents) ==>
        result == Skipped && names == old(names) && documents == old(documents)
      ensures name !in old(documents) && extract(ReaderFor(name)).None? ==>
        result == ReadFailed && names == old(names) && documents == old(documents)
      ensures name !in old(documents) && extract(ReaderFor(name)).Some? ==>
        var content := extract(ReaderFor(name)).value;
        && result == Loaded(|Chunks(content)|)
        && documents == old(documents)[name := Load(name, content)]
        && names == old(names) + [name]
    {
      if name in documents {
        return Skipped;
      }
      var extracted := extract(ReaderFor(name));
      if extracted.None? {
        return ReadFailed;
      }
      var content := extracted.value;
      var chunks := Chunks(content);
      StoredAdd(names, documents, name, content);
      names, documents := names + [name], documents[name := Document(content, chunks, Extension(name), |content|)];
      result := Loaded(|chunks|);
    }

    /** The delete button of app.py:185-186: only `name` leaves the store
        and the key order; everything else stays. */
    method Delete(name: string)
      requires Valid() && name in documents
      modifies this`names, this`documents
      ensures Valid()
      ensures documents == old(documents) - {name}
      ensures names == Without(old(names), name)
    {
      StoredRemove(names, documents, name);
      names, documents := Without(names, name), documents - {name};
    }

    /** The clear button of app.py:190-193, shown only while documents
        are loaded: it empties both the store and the conversation. */
    method ClearAll()
      requires Valid()
      modifies this`names, this`documents, this`messages
      ensures Valid()
      ensures |old(names)| > 0 ==> names == [] && documents == map[] && messages == []
      ensures |old(names)| == 0 ==>
        names == old(names) && documents == old(documents) && messages == old(messages)
    {
      if |names| > 0 {
        names, documents, messages := [], map[], [];
      }
    }

    /** A question submitted in the chat box, app.py:230-322. An empty
        submission, or one made without a valid key, records nothing.
        Otherwise the question is recorded as one user turn, the context
        is retrieved and sent with it, and exactly one assistant turn
        records the reply; earlier turns and the store are untouched. */
    method Ask(prompt: string, respond: string -> Response) returns (sent: Option<string>)
      requires Valid()
      modifies this`messages
      ensures Valid()
      ensures |prompt| == 0 || !old(keyValid) ==> messages == old(messages) && sent == None
      ensures |prompt| > 0 && old(keyValid) ==>
        var request := UserPrompt(Context(prompt, names, documents), prompt);
        var reply := Reply(respond(request), Ranked(prompt, names, documents));
        && sent == Some(request)
        && messages == old(messages) + [Turn(User, prompt), Turn(Assistant, reply)]
    {
      if |prompt| == 0 || !keyValid {
        return None;
      }
      var ns, ds := names, documents;
      messages := messages + [Turn(User, prompt)];
      var ranked, context := Retrieve(prompt, ns, ds);
      var request := UserPrompt(context, prompt);
      sent := Some(request);
      var reply := ReplyFor(respond(request), ranked);
      messages := messages + [Turn(Assistant, reply)];
    }
  }
}
