# Simple RAG assistant: retrieval core in Dafny

`app.py` is a Streamlit page for asking questions about uploaded documents.
The user pastes a DeepSeek API key and uploads files. Each file's text is cut
into paragraph chunks and kept in a session store. A question is answered in
three steps:

1. every chunk sharing words with the question is collected;
2. the collected chunks are ranked by overlap, and the best five are sent with
   the question to the chat service;
3. the answer is shown with up to two numbered source citations.

Every question and every reply is appended to a conversation log.

This project models that pipeline and proves facts about it. Modules follow
the steps of the script:

- `Text` models the parts of Python's `str` the script relies on:
  - `strip()` and `split()`, over the exact `str.isspace()` character set;
  - `lower()`, on ASCII letters;
  - `str(n)` of a non-negative integer.
- `Paragraphs` models `split("\n\n")` and `"\n\n".join(...)`, with round trips in both directions.
- `Filtering` models a list comprehension with a condition (`[f(x) for x in s if ...]`): what it keeps and in which order.
- `Chunker` models the paragraph chunker of line 165.
- `Documents` models three things:
  - the stored record;
  - the type taken from the file name (`split('.')[-1]`);
  - the choice of text reader.
- `Ranking` covers:
  - relevance as the size of the intersection of the two word sets;
  - the nested collection loops, as methods proved against a specification function;
  - Python's stable descending sort.
- `Retrieval` assembles the context from the best five matches, or gives the "no documents" notice.
- `Citations` appends the source list to a successful answer, as a loop proved against a function.
- `Session` holds the session state: a class whose fields are the store, the key order of the store, the conversation and the key status. Its methods model:
  - key checking;
  - uploading one file;
  - deleting one file;
  - clearing everything;
  - asking a question.

The store is a Python dict, and the order of its keys decides the order in
which chunks are collected, and so the tie order of the stable sort. The model
therefore keeps the key order as a sequence `names` next to the map
`documents`. It proves an invariant (`Session.Stored`) that ties the two
together and says every record is the one an upload builds from its content.

The network and the foreign libraries are parameters of the methods:

- `status` is what the key-check request returned;
- `extract` is the text a reader produced, or a failure;
- `respond` is the chat service's reply to a request.

The model follows `app.py` as written:

- The chunker only splits on paragraphs. There is no sentence or fixed-width fallback, so a text without a paragraph longer than 50 characters has no chunks (`Chunker.NoChunksIff`).
- A question word counts only when it equals a chunk word after lowering (set intersection). It does not count as a substring. There are no stop words and no filter on word length.
- When nothing matches there is no fallback to the first 1000 characters of each document. With documents loaded, the context is then empty (`Retrieval.ContextCases`).
- The top five matches are joined with a blank line, each headed `[来自 name]:`. Total length is not capped.
- Citations list at most two matches, with a preview of 100 characters followed by `...`.

## Model

| member | source | states |
|---|---|---|
| Text.Strip | app.py:165 | `strip()` never lengthens the text and leaves no whitespace at either end |
| Text.TrimStartParts | app.py:165 | stripping the front removes exactly a whitespace prefix and keeps the rest |
| Text.TrimEndParts | app.py:165 | stripping the back removes exactly a whitespace suffix and keeps the rest |
| Text.StripIsInfix | app.py:165 | the stripped paragraph is the part of the original between a whitespace prefix and a whitespace suffix |
| Text.StripEmptyIff | app.py:165 | stripping leaves nothing exactly when the text is all whitespace |
| Text.Lower | app.py:247 | `lower()` keeps the length and lowers each character in place |
| Text.TakeWordParts | app.py:247 | a word is a whitespace-free prefix that ends at the end of the text or at whitespace |
| Text.WordsShape | app.py:250 | every word `split()` yields is non-empty and holds no whitespace |
| Text.WordsAppend | app.py:250 | splitting two texts that meet at whitespace gives the words of the first followed by the words of the second |
| Text.WordsOfWord | app.py:250 | a single non-empty whitespace-free word splits into exactly itself; with `WordsAfterBlank` and `WordsAppend` this fixes the result of `split()` on every text |
| Text.WordsAfterBlank | app.py:250 | leading whitespace adds no words: the words of `a + b`, when `a` holds nothing but whitespace (it trims to nothing), are those of `b`, and `a` has none |
| Text.WordsAroundSpace | app.py:250 | the words of `a + " " + b` are the words of `a` followed by those of `b` |
| Text.DecimalString | app.py:315 | the rendered status code is all digits, with no leading zero unless it is 0 |
| Text.DecimalRoundTrip | app.py:315 | reading the rendered digits back gives the number again |
| Paragraphs.Split | app.py:165 | `split("\n\n")` always yields at least one piece |
| Paragraphs.SplitFirst | app.py:165 | the first piece is a prefix of the text, is the whole text when alone, and is followed by a separator otherwise |
| Paragraphs.JoinSplit | app.py:165 | joining the pieces with `"\n\n"` gives back the text |
| Paragraphs.SplitSeparable | app.py:165 | no piece holds a separator, and no piece but the last ends in a newline |
| Paragraphs.SplitWhole | app.py:165 | a text without a separator is one piece |
| Paragraphs.SplitAfterPiece | app.py:261-262 | a separator after a separator-free piece without a final newline is where splitting first cuts |
| Paragraphs.SplitJoin | app.py:261-262 | splitting what `"\n\n".join` built from separable pieces gives back the pieces |
| Paragraphs.NoBreakConcat | app.py:261 | gluing separator-free texts creates no separator unless a newline meets a newline |
| Filtering.FilterMap | app.py:165 | a filtered comprehension is never longer than its input |
| Filtering.FilterMapSpec | app.py:165 | there is one increasing kept position per result, each result is computed from the element at its kept position, and an element is kept exactly when it passes the condition |
| Filtering.KeptIndicesIff | app.py:165 | an element passes the condition exactly when its position is kept |
| Filtering.FilterMapEmptyIff | app.py:165 | the comprehension is empty exactly when no element passes the condition |
| Chunker.ChunksSpec | app.py:165 | the chunks are the stripped segments longer than 50 characters, each taken once, in segment order, and every such segment is taken |
| Chunker.NoChunksIff | app.py:165 | a text yields no chunk exactly when no stripped paragraph exceeds 50 characters |
| Chunker.BlankHasNoChunks | app.py:165 | an all-whitespace text yields no chunk |
| Chunker.JoinHolds | app.py:165 | every piece is at most as long as the text and is all whitespace when the text is |
| Chunker.ParagraphShape | app.py:165 | a kept separator-free segment is longer than 50, starts and ends with non-whitespace, and holds no separator |
| Chunker.ChunkShape | app.py:165 | every chunk is longer than 50 characters, starts and ends with non-whitespace, and holds no blank line |
| Documents.Pieces | app.py:170 | `split('.')` always yields at least one piece |
| Documents.JoinPieces | app.py:170 | joining the pieces with `'.'` gives back the name |
| Documents.ExtensionIsLastPiece | app.py:170 | the recorded type is the last piece of `split('.')` |
| Documents.ExtensionSpec | app.py:170 | the type is a dot-free suffix of the name, preceded by a dot unless it is the whole name |
| Documents.ExtensionAfterDot | app.py:170 | a name `a + "." + x` with a dot-free `x` has type `x` |
| Documents.ReaderMatchesType | app.py:153-170 | a file read as PDF is recorded with type `pdf`, one read as Word with type `docx` |
| Ranking.ElementsAppend | app.py:250 | the word set of two word lists is the union of their word sets |
| Ranking.LowerAppend | app.py:250 | lowering a concatenation lowers each part |
| Ranking.TokensAppend | app.py:250 | the word set of `a + " " + b` is the union of the word sets of `a` and `b` |
| Ranking.OverlapGrows | app.py:251 | appending text to a chunk never lowers its relevance |
| Ranking.SubsetCard | app.py:251 | a subset is no larger than its superset |
| Ranking.CandidatesCount | app.py:248-249 | the loops visit as many candidates as the documents hold chunks |
| Ranking.CandidatesSpec | app.py:248-249 | every visited candidate is a chunk of a listed document, and every chunk of a listed document is visited |
| Ranking.FilterMapAppend | app.py:248-257 | collecting over two stretches of candidates is collecting over each in turn |
| Ranking.PairsStep | app.py:250-257 | one more chunk adds one match exactly when it shares a word with the question |
| Ranking.NamesStep | app.py:248 | one more document adds the matches of its chunks at the end |
| Ranking.CollectedSpec | app.py:247-257 | each match carries its chunk's true relevance, at least 1, in visiting order and at most once, and a candidate is collected exactly when it shares a word with the question |
| Ranking.NothingCollectedIff | app.py:252 | nothing is collected exactly when no chunk shares a word with the question |
| Ranking.CollectedFromDocuments | app.py:253-257 | every collected match names a loaded document, holds one of its chunks and carries that chunk's relevance |
| Ranking.MatchesIn | app.py:249-257 | the inner loop collects exactly the scored chunks of one document |
| Ranking.CollectMatches | app.py:245-257 | the nested loops build exactly the collected list of the specification |
| Ranking.InsertSorted | app.py:260 | inserting into a non-increasing list keeps it non-increasing and adds one element |
| Ranking.InsertBound | app.py:260 | inserting below a bound keeps every element below it |
| Ranking.InsertPerm | app.py:260 | insertion adds exactly the inserted element |
| Ranking.SortSorted | app.py:260 | the sorted list has non-increasing relevance and the same length |
| Ranking.SortPermutation | app.py:260 | the sorted list is a permutation of the collected list |
| Ranking.WithRelevanceAppend | app.py:260 | the matches of one relevance in `s + [x]` are those in `s`, then `x` if it has that relevance |
| Ranking.WithRelevanceBelow | app.py:260 | a non-increasing list headed below a relevance holds nothing of that relevance |
| Ranking.InsertStable | app.py:260 | insertion puts the element after every equally relevant one |
| Ranking.SortStable | app.py:260 | for every relevance, the matches of that relevance keep their collection order (the sort is stable) |
| Retrieval.Retrieve | app.py:245-264 | the retrieval step yields the ranked matches and the context of the specification |
| Retrieval.RankedSpec | app.py:260 | the ranking is non-increasing, a permutation of the collected list, and stable for every relevance |
| Retrieval.RankedFromDocuments | app.py:247-260 | every ranked match is a chunk of the document it names, with true relevance of at least 1 |
| Retrieval.JoinNonEmpty | app.py:261-262 | joining entries whose first is non-empty gives a non-empty text |
| Retrieval.ContextCases | app.py:246-264 | with no document the context is the notice; with documents it is empty exactly when no chunk shares a word with the question |
| Retrieval.ChunkMember | app.py:165 | a stored chunk is long, starts and ends with non-whitespace, and holds no blank line |
| Retrieval.EntryShape | app.py:261 | an entry holds no blank line and does not end in a newline |
| Retrieval.ContextSplits | app.py:261-262 | splitting the context on blank lines gives back the entries of the top matches, in ranked order, at most five of them |
| Citations.PreviewSpec | app.py:309 | the preview is the first 100 characters, or the whole chunk when shorter, followed by `...` |
| Citations.CitationLineNumber | app.py:310 | each line starts with its number followed by `. `, and the number reads back from its digits |
| Citations.CitationLinesSnoc | app.py:308-310 | one more cited match adds its line, numbered by its position from 1 |
| Citations.AppendCitations | app.py:306-310 | the `+=` loop builds exactly the answer with its citation block |
| Citations.CitationsCases | app.py:306-310 | the answer is unchanged without matches; otherwise the header follows, then line 1 for the best match and line 2 for the second when there is one, and nothing else |
| Session.ReplyFor | app.py:301-322 | the reply is the answer with citations on status 200, the status message on another status, and the error message on an exception |
| Session.ReplyCases | app.py:301-322 | a successful answer stays in front of its citations and is unchanged without matches; a failed call reports a status that reads back; an exception reports its text |
| Session.UserPromptParts | app.py:271-276 | the request holds the context and the question at fixed offsets |
| Session.Without | app.py:186 | deleting a key never lengthens the key order |
| Session.WithoutSpec | app.py:186 | deleting a key removes exactly that name from the key order and keeps the names distinct |
| Session.WithoutAbsent | app.py:186 | deleting a name that is not listed leaves the key order as it is |
| Session.WithoutAt | app.py:186 | deleting the name at position `i` of a duplicate-free key order gives `names[..i] + names[i + 1..]`, so every other key keeps its order, as `del` on a dict does |
| Session.StoredAdd | app.py:149-172 | adding a new name with its record keeps the store invariant |
| Session.StoredRemove | app.py:186 | removing a name and its record keeps the store invariant |
| Session.State.constructor | app.py:76-81 | a fresh session has no documents, no messages and no valid key |
| Session.State.CheckKey | app.py:95-134 | an empty key changes nothing; otherwise the key is valid exactly when the test request returned 200, and only then is it kept; nothing else changes |
| Session.State.Upload | app.py:149-175 | a stored name is skipped; if the read fails nothing changes; otherwise exactly one record, built from the content, is added at the end of the key order |
| Session.State.Delete | app.py:185-187 | only the named record leaves the store and the key order; the invariant holds |
| Session.State.ClearAll | app.py:190-193 | while documents are loaded, both the store and the conversation become empty; otherwise nothing changes |
| Session.State.Ask | app.py:230-322 | an empty question or one without a valid key changes nothing; otherwise exactly one user turn and then one assistant turn are appended, and the request carries the retrieved context |

## Left out

- The page layout, CSS, widgets, columns and document statistics (app.py:13-73, 178-228, 324-332) are user interface only. The 30-character name caption of line 183 is also left out.
- Reruns are not modelled as such. `st.rerun()` after a delete (app.py:187) or a clear (app.py:193) runs the script again, including the upload loop of app.py:147-175. A file still selected in the uploader would then be read again and added at the end of the key order. In the model this is `Delete` or `ClearAll` followed by one `Upload` per file still selected; the model does not tie these calls together.
- The network is not modelled. The key-check request (app.py:97-112) is the `status` parameter of `CheckKey`, and `None` stands for an exception. The chat request and its JSON parsing (app.py:279-303) are the `respond` parameter of `Ask`.
- Text extraction by PyPDF2 and python-docx, and UTF-8 decoding with `errors='ignore'` (app.py:154-162), are the `extract` parameter of `Upload`. The model captures only which reader the name selects, and that a reader failure stores nothing.
- The upload loop of line 148 is modelled one file at a time. Each pass of the loop is one call of `Upload`.
- The system prompt text (app.py:267-269) and the HTTP headers are left out. The user message is modelled with its template text (`UserPrompt`).
- Text.Lower: lowers only ASCII letters. Python's `str.lower()` also lowers other letters. Full Unicode case mapping tables are outside this model.
- `Ask` models an exception only as an outcome of the chat request (`Raised`). The retrieval steps it models cannot fail.
- Session.State.Delete: requires the name to be stored. In the script the delete button is only offered for stored names, and `del` on a missing key would raise.
- Ranking.SortStable: the in-place `list.sort` is modelled on values, as an insertion sort with the same result as Python's stable sort for this key. The in-place update of the Python list is not modelled.
