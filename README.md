# KUI chatbot back end: a Dafny model

This project models the back end of the KUI chatbot of Universitas
Padjadjaran. It covers three parts:

- **The Express controllers and their Mongoose schemas.** This is the
  knowledge-base table, the chat-session lifecycle, the heartbeat sweep and
  the admin operations with their session guard.
- **The Python scraper.** This is the URL filter, the text filter with its
  order-preserving de-duplication, the URL history, and the depth-limited
  recursive crawl.
- **The retrieval glue.** Stored knowledge records are turned into
  documents and indexed behind a chain of guards, and answers are built
  from the retrieved context with every failure turned into a message.

MongoDB collections are modelled as maps and sequences, the Express session
as a record, and the clock as an integer `now` in milliseconds. Where a
handler changes state in place, it is a method of a class:

- `KnowledgeController.KnowledgeBase` holds the knowledge collection;
- `ChatDb.ChatStore` holds the chat and message collections;
- `AppController.ChatApp` holds the module-level heartbeat table;
- `AdminController.AdminStore` holds the admin accounts;
- `Scrapping.Crawler` holds the scraper's `visited` set, the history file
  and the page files.

Each such method is specified by the whole new state. The state changes
are phrased through specification functions (`AppController.Close`,
`AppController.SweepResult`, `Scrapping.CrawlEffect`), and lemmas state
what those functions guarantee. The crawler's pages are fixed, in the
order they are visited, by `Scrapping.CrawlTrace`, so its new state is
determined by the site and the old state alone.

The following are parameters the model knows nothing about:

- bcrypt's hash and compare;
- the reCAPTCHA verification and the chatbot's `/reply` call;
- Ollama, Chroma, the text splitter and the LLM;
- the pages and links the crawler fetches.

The files are:

- `common.dfy` holds `Option`/`Result`, JavaScript truthiness and string
  helpers.
- `knowledge_model.dfy`, `chat_model.dfy` and `sorting.dfy` hold the
  schemas and the `sort({updatedAt: -1})` stage.
- `knowledge_controller.dfy`, `app_controller.dfy` and
  `admin_controller.dfy` hold the handlers.
- `url_parse.dfy` holds the part of Python's `urlparse` the scraper
  relies on.
- `scrapping.dfy` and `rag.dfy` hold the Python side.

## Model

| member | source | states |
|---|---|---|
| KnowledgeModel.NewKnowledge | back-end/models/knowledgeModel.js:4-14 | A new record holds exactly the given topic, content and category, takes the default status ACTIVE and both timestamps `now`. It satisfies the schema's required fields. |
| KnowledgeModel.Toggled | back-end/controller/knowledgeController.js:67 | The toggled status always differs from the old one. |
| KnowledgeModel.ToggleTwice | back-end/controller/knowledgeController.js:67 | Toggling twice gives back the original status. |
| Sorting.SortDescCorrect | back-end/controller/knowledgeController.js:7 | The `updatedAt: -1` sort returns exactly the input's elements (same multiset, same length), in descending key order. |
| KnowledgeController.RowsAreEntries | back-end/controller/knowledgeController.js:7 | The collection read in natural order holds exactly the stored (id, record) entries, each once. |
| KnowledgeController.KnowledgeBase.GetAllKnowledge | back-end/controller/knowledgeController.js:5-12 | The listing contains every stored record whatever its status, and nothing else. No id appears twice, and the order is by `updatedAt`, newest first. |
| KnowledgeController.KnowledgeBase.CreateKnowledge | back-end/controller/knowledgeController.js:15-29 | A missing or empty topic, content or category gives 400 and stores nothing. Otherwise the code is 201 and exactly the new ACTIVE record is added under the fresh id. The table's invariant is kept. |
| KnowledgeController.Patched | back-end/controller/knowledgeController.js:36-42 | An update changes only the fields that were sent, keeps status and createdAt, refreshes updatedAt, and keeps the record well-formed. |
| KnowledgeController.KnowledgeBase.UpdateKnowledge | back-end/controller/knowledgeController.js:32-51 | An empty required field fails validation (500) before the lookup. An unknown id gives 404. Either way the table is unchanged. Otherwise only the target record changes, to its patched form (200). |
| KnowledgeController.KnowledgeBase.ToggleKnowledgeStatus | back-end/controller/knowledgeController.js:57-84 | An unknown id gives 404 with the table unchanged. Otherwise only the target's status (toggled) and updatedAt change, and every other record is untouched. |
| KnowledgeController.Without | back-end/controller/knowledgeController.js:91 | Removing an id from the natural order keeps every other id and drops all occurrences of that id, without repetitions. |
| KnowledgeController.KnowledgeBase.DeleteKnowledge | back-end/controller/knowledgeController.js:88-100 | An unknown id gives 404 and changes nothing. Otherwise exactly that record is removed (200). |
| ChatModel.Deactivated | back-end/controller/appController.js:205-209 | Closing turns ACTIVE into NONACTIVE, keeps createdAt and refreshes updatedAt. |
| ChatModel.DropMessagesOf | back-end/controller/adminController.js:202 | `deleteMany({chatId: {$in: ids}})` leaves exactly the messages whose chat is not among the ids, each with as many copies as before, as a subsequence of the collection (order kept). It leaves everything when none matches. |
| AppController.Close | back-end/controller/appController.js:191-233 | Closing a missing or non-ACTIVE chat returns null and changes nothing. Otherwise the chat becomes NONACTIVE and loses its heartbeat entry. Only a consent of exactly 'false' also deletes the chat and its messages. |
| AppController.CloseIsLocal | back-end/controller/appController.js:205-224 | Closing one chat leaves every other chat as it was, together with that other chat's messages and heartbeat entry. |
| AppController.CloseNeverReopens | back-end/controller/appController.js:196-209 | No chat goes from NONACTIVE back to ACTIVE. |
| AppController.PostMsgGuard | back-end/controller/appController.js:39-63 | The guards run in order: no session chat gives 400, a missing chat 404, a non-ACTIVE chat 400. A message passes exactly when the chat exists and is ACTIVE. |
| AppController.ChatApp.PostMsg | back-end/controller/appController.js:36-109 | A rejected post stores nothing and returns the guard's code. An unreachable `/reply` gives 500 and stores nothing. Otherwise the user's message (sender USER) and then the reply (sender SELF, no attachment) are appended, each stamped with the clock reading of its own save, and the chats are untouched. |
| AppController.ConsentOrDefault | back-end/controller/appController.js:173 | The stored consent is the one sent when it is truthy, and 'false' when it is missing or empty; it is never empty. |
| AppController.NewChatAcceptsMessages | back-end/controller/appController.js:165-169 | The chat `createChat` saves is ACTIVE, so it can be closed and `postMsg`'s guard lets messages for it through. |
| AppController.ChatApp.SetChatNonActive | back-end/controller/appController.js:191-233 | The new database and heartbeat table, and the result, are those given by `Close`. |
| AppController.ChatApp.CreateChat | back-end/controller/appController.js:112-189 | A missing token gives 400. A missing secret key or a failed verification request gives 500. A rejected token gives 401. In all four cases nothing changes. On success the previous session chat is closed with the previous consent, and a new ACTIVE chat is added. The session then holds the new chat id and the consent, defaulting to 'false'. |
| AppController.ChatApp.NonactiveChat | back-end/controller/appController.js:236-259 | No session chat gives 400 and changes nothing. Otherwise the chat is closed as by `Close`. A chat that could not be closed gives 404 and keeps the session. Success gives 200, clears the session's chat id and keeps the consent. |
| AppController.ChatApp.PostHeartbeat | back-end/controller/appController.js:267-274 | The session's chat id (possibly undefined) maps to `now`, and every other entry is kept. |
| AppController.SweepResult | back-end/controller/appController.js:277-292 | A sweep deletes no chat and no message, and reopens nothing. |
| AppController.SweepClosesExactly | back-end/controller/appController.js:278-286 | The sweep closes the chats `Swept` selects. After a sweep a chat is NONACTIVE exactly when it already was, or when its heartbeat is strictly older than five minutes. A chat with a fresh heartbeat keeps its record and its entry. |
| AppController.SweepKeepsEntriesOfClosedChats | back-end/controller/appController.js:196-216 | The sweep does not remove a stale entry whose chat is missing or already closed. |
| AppController.ChatApp.Sweep | back-end/controller/appController.js:277-292 | Visiting the heartbeat entries in any order yields the state `SweepResult` describes. |
| AdminController.FindByUsername | back-end/controller/adminController.js:18 | The lookup finds the first account with that username, and finds none exactly when no account has it. |
| AdminController.AdminStore.CreateAccount | back-end/controller/adminController.js:10-50 | A missing username or password gives 400 and a taken username 409, and neither adds an account. Otherwise the account is appended with the hash of the password, and only id and username are returned. Unique usernames stay unique. |
| AdminController.Login | back-end/controller/adminController.js:56-94 | Login succeeds exactly when the username exists and the password matches its hash. Success records that admin's id and username in the session. Every failure is the same 401 reply with the session unchanged. |
| AdminController.LoginFailuresIndistinguishable | back-end/controller/adminController.js:60-68 | An unknown username and a wrong password for a known one produce identical replies. |
| AdminController.Filtered | back-end/controller/adminController.js:125 | The `$match` stage keeps every copy of each message of the chat, in collection order, and nothing else. |
| AdminController.ProjectAll | back-end/controller/adminController.js:148-155 | The `$project` stage turns each message, position by position, into its projection with the chat's creation time. |
| AdminController.Joined | back-end/controller/adminController.js:123-157 | The joined history holds exactly the chat's messages, each with its chat's creation time, and nothing for a chat that does not exist. Position by position it is the projection of the chat's messages in collection order, so each message appears as often as it is stored. |
| AdminController.GetChatHistory | back-end/controller/adminController.js:114-171 | A missing chat id gives 400. 404 comes exactly when the chat does not exist or has no messages. Every other request gives 200, with a non-empty permutation of the joined history, newest first. |
| AdminController.DeleteOldChats | back-end/controller/adminController.js:176-217 | Exactly the chats `OldChats` selects (NONACTIVE and last updated at least seven days ago) are deleted, with all their messages. The count equals the number deleted. |
| AdminController.PurgeSparesRecentAndActive | back-end/controller/adminController.js:182-185 | An ACTIVE chat, or one updated within seven days, survives the purge with all of its messages. |
| AuthAdmin.IsAdmin | back-end/middleware/authAdmin.js:3-12 | The request passes exactly when a session exists with a truthy admin id. Otherwise the reply is 401 with the fixed message. |
| AuthAdmin.DecisionDependsOnlyOnAdminId | back-end/middleware/authAdmin.js:5 | Two sessions with the same admin id get the same decision. |
| UrlParse.ParsePlain | back-end/chatbot/scrapping.py:47 | Parsing `scheme://host/path` gives back exactly that scheme, host and path, with no params, query or fragment. |
| Scrapping.ValidPlainUrl | back-end/chatbot/scrapping.py:45-62 | `IsValidUrl` (`is_valid_url`) on a URL `scheme://host/path`: such a URL is followed exactly when all of these hold: the scheme is http or https, the host contains the domain, the lower-cased URL ends in no excluded extension, and the lower-cased path contains no excluded path. |
| Scrapping.DirectoryUrlHasNoExcludedExtension | back-end/chatbot/scrapping.py:54-55 | A URL ending in '/' never ends in an excluded file extension. |
| Scrapping.DomainRootIsValid | back-end/chatbot/scrapping.py:45-62 | The root page of any http(s) host inside the domain is followed. |
| Scrapping.StartUrlIsValid | back-end/chatbot/scrapping.py:166 | The start page passes `is_valid_url`, so a run whose history lacks it crawls it. |
| Scrapping.KeptTexts | back-end/chatbot/scrapping.py:89-98 | A text is kept exactly when it occurs in the page and is longer than 30 characters without an excluded word. |
| Scrapping.KeptTextsIsSubsequence | back-end/chatbot/scrapping.py:84-98 | The kept texts appear in page order. |
| Scrapping.DeepestTexts | back-end/chatbot/scrapping.py:84-98 | The filtering loop, with its early exit on the first excluded word, returns the kept texts. |
| Scrapping.DedupCorrect | back-end/chatbot/scrapping.py:101 | `Dedup`, the model of `dict.fromkeys`, keeps every text, none twice, in input order, each at its first occurrence. |
| Scrapping.ScrapePage | back-end/chatbot/scrapping.py:66-115 | An existing file means nothing is done (None). A failed request gives 0. Otherwise the saved texts are exactly the kept texts of the page without duplicates, in page order, and their number is returned. |
| Scrapping.Strip | back-end/chatbot/scrapping.py:30 | `str.strip` returns a slice of the line that starts and ends with no whitespace, and only whitespace was removed on either side. |
| Scrapping.StripIdempotent | back-end/chatbot/scrapping.py:30 | Stripping twice is the same as stripping once. |
| Scrapping.HistoryRoundTrip | back-end/chatbot/scrapping.py:25-37 | Reading back the lines saved for followed URLs gives the same URLs, in order, when none ends in whitespace. |
| Scrapping.Crawler.LoadHistory | back-end/chatbot/scrapping.py:25-32 | `visited` gains exactly the stripped history lines, and the count returned is the size of `visited`. |
| Scrapping.ChildMaxDepth | back-end/chatbot/scrapping.py:146-149 | A faculty or study-programme URL (containing `/fakultas` or `/program-studi`) gets max(limit, 3), and every other URL keeps the parent's limit. It never exceeds max(limit, 3). |
| Scrapping.Crawler.Visit | back-end/chatbot/scrapping.py:125-129 | A new page is marked visited, its history line is appended and its file is written unless it exists. |
| Scrapping.Crawler.Crawl | back-end/chatbot/scrapping.py:118-160 | A visited, too deep or invalid URL changes nothing. Otherwise the pages visited are exactly `CrawlTrace`, in order: the URL first, at its depth with its limit, then each link's crawl in link order. Every page crawled has its links followed: each valid link whose own limit admits the next level ends up visited. Every page crawled is valid and previously unvisited, and each after the first was linked from a page one level up, with the limit `ChildMaxDepth` gives it from that page's. Each page's depth stays within its own limit, no limit exceeds max(limit, 3), and each page is visited once. The state changes are exactly those pages' visits, history lines and files. |
| Scrapping.Crawler.CrawlPage | back-end/chatbot/scrapping.py:125-160 | Past the guard, the URL is visited first, and the pages visited are exactly `CrawlTrace` in order, each with its links followed, and account for the whole change of state. |
| Scrapping.Crawler.FollowLinks | back-end/chatbot/scrapping.py:140-155 | The loop appends exactly `LinksTrace` to the pages visited: the crawls of the links in link order, each starting from what the earlier links visited. After the loop every valid link of the page whose own limit admits the next level is visited, and every page crawled from those links had its own links followed in the same way. Every page visited so far is valid and was found from an earlier page with the limit derived from it, and the state change is exactly those pages' visits, history lines and files. |
| Scrapping.Crawler.FollowLink | back-end/chatbot/scrapping.py:141-155 | One pass of the loop consumes exactly link `i`'s share of `LinksTrace`: its crawl when it is valid and not yet visited, nothing otherwise. Afterwards link `i` is followed if its own limit admits the next level, and the progress of the crawl is kept. |
| Scrapping.Crawler.CrawlChild | back-end/chatbot/scrapping.py:152-155 | A valid, unvisited link is crawled one level deeper with the limit `ChildMaxDepth` gives it, and its pages are the next ones in `LinksTrace`. |
| Scrapping.Crawler.MainScrapping | back-end/chatbot/scrapping.py:164-178 | After loading the history, the pages visited are exactly `CrawlTrace` of the start page at depth 0 with limit 2, from the old set and the history. A start page that is not yet visited is crawled first; one already visited means nothing is crawled. Every crawled page had its links followed: each valid link whose own limit admits the next level is visited. No page deeper than 3 is visited. `visited` is the old set, the history and the crawled pages, the history and the files change exactly by those pages' visits, and the size of `visited` is returned. |
| Rag.ToDocument | back-end/chatbot/rag.py:50-52 | A record becomes a document with source "mongodb", the record's topic in its metadata, and a text starting with the topic label. |
| Rag.DocumentRoundTrip | back-end/chatbot/rag.py:50-52 | The topic and content of a record can be read back from its document. |
| Rag.ToDocuments | back-end/chatbot/rag.py:48-52 | One document per record, in collection order. |
| Rag.LoadFromMongo | back-end/chatbot/rag.py:34-59 | The loop builds `LoadedDocuments`: no documents without a MONGO_URI or on a database error. Otherwise one document per stored record. |
| Rag.EveryRecordIsIndexed | back-end/chatbot/rag.py:45-52 | Every record is loaded whatever its status, so INACTIVE entries are indexed too. |
| Rag.MainRag | back-end/chatbot/rag.py:64-93 | The three guards return 0 without touching the store: no embeddings, no documents, no chunks. Past them, a successful write appends the chunks of the loaded documents to the store and returns their number, and a failed write propagates and leaves the store as it was. |
| Rag.MainRagCount | back-end/chatbot/rag.py:64-93 | 0 is returned exactly when a guard stopped the run. A positive count is the number of chunks, and exactly those were added. |
| Rag.JoinLength | back-end/chatbot/rag.py:132 | A joined string is as long as its parts plus one separator between each pair. |
| Rag.JoinPart | back-end/chatbot/rag.py:132 | Each part appears whole in the joined string at its computed offset. |
| Rag.JoinSeparator | back-end/chatbot/rag.py:132 | A separator follows each part but the last. |
| Rag.ContextHoldsEveryDocument | back-end/chatbot/rag.py:130-132 | In `Context`, every retrieved document's text appears whole in the context, at the place its rank gives it. |
| Rag.ErrorMessagesDistinct | back-end/chatbot/rag.py:123-141 | Among the answers `ErrorMessage` builds, a missing store, any other error and an unloaded model give distinguishable messages. Other errors carry the "Terjadi kesalahan: " prefix. |
| Rag.GetRagResponse | back-end/chatbot/rag.py:122-141 | Without the chain or the embeddings the answer is the not-loaded message. Opening, retrieval (k = 4) and generation errors become their messages. Otherwise the answer is the response's text, or the fallback message when it has none. |
| Rag.NotLoadedSkipsStore | back-end/chatbot/rag.py:123-124 | Without a loaded model the answer does not depend on the store, the retriever or the LLM. |
| Rag.AnswerDependsOnRetrievedTexts | back-end/chatbot/rag.py:130-133 | Two retrievals returning the same texts in the same order give the same answer. |

## Left out

- `getChat` (back-end/controller/appController.js:10-31) and `logout` (back-end/controller/adminController.js:99-109) are not modelled: they only read or destroy the session and answer.
- Server bootstrap and routing are glue and are not modelled. Note that `knowledgeRoutes.js` (lines 16-19) registers no route for `toggleKnowledgeStatus`, so the toggle handler is unreachable over HTTP as written; the model still states what the handler does.
- Concurrency is left out. `createChat` and the sweep call `setChatNonActive` without awaiting it (appController.js:161, 286); the model runs these calls to completion, in sequence. The interval timer is replaced by one sweep at a given `now`.
- Database failures (the 500 branches of every `catch`) and MongoDB query semantics are left out. ObjectId casting is also left out: ids are strings, and new ids are fresh strings supplied by the caller.
- `AppController.ChatApp.PostMsg`: the reply is sent before the two messages are saved (appController.js:92-101); the model treats the saves as succeeding, so a save failure after the 201 is not modelled.
- Request bodies are optional strings: JSON `null`, numbers or objects in a body field are not modelled.
- `AdminController.Login` takes its username and password as present strings. Two consequences of missing fields are therefore not modelled. A missing password makes `bcrypt.compare` throw for a known username, which gives 500 (adminController.js:65, 86-92), while an unknown username gives 401, so the replies reveal which usernames exist. A missing username makes `findOne({ username: undefined })` match the first account (adminController.js:60).
- `AdminController.HistoryEntry` leaves out the message `_id`, which the `$project` stage keeps by default (adminController.js:148-156).
- A failed `req.session.save` in login (adminController.js:73-85) is not modelled.
- Calendar arithmetic: `setDate(getDate() - 7)` is modelled as subtracting seven days of milliseconds, so daylight-saving shifts are ignored.
- bcrypt, reCAPTCHA and the `/reply` endpoint are parameters: hashing, verification and replies are not modelled.
- `AdminController.GetChatHistory`: ties in `createdAt` are resolved stably in the collection's order; MongoDB does not promise an order for ties.
- `UrlParse.Parse` covers scheme, network location, fragment, query and `;params`. Not modelled: stripping of leading control characters and spaces, removal of tab/CR/LF, the `ValueError` for malformed IPv6 hosts, and non-ASCII case mapping in `lower()`.
- `urljoin` is not modelled: a page's links are given as absolute URLs.
- `Scrapping.Crawler.FollowLinks` goes on to the next link after each one. In the source `is_valid_url` has no `try` (scrapping.py:45-62), so a `ValueError` from `urlparse` on one link (a malformed IPv6 host) ends that page's whole link loop through the `except` at scrapping.py:159-160. The model's `UrlParse.Parse` never fails, so this early exit is not modelled.
- HTTP and HTML parsing are not modelled. The site is a value giving each page's leaf texts and link URLs; the two fetches of a page in `crawl` are assumed to see the same page.
- The one-second delay between pages is not modelled.
- Page files are keyed by URL: the SHA-256 file name (scrapping.py:39-43) is assumed to be injective. A write failure after the file is opened is not modelled.
- A missing history file is modelled as a history with no lines.
- Python's universal-newline reading is not modelled: URLs are assumed to hold no line breaks.
- `Scrapping.IsSpace` follows Python's `str.isspace` for the characters listed. It does not claim to cover every Unicode whitespace character.
- Ollama, Chroma and the text splitter are parameters: embedding, vector search and generation are not modelled. A failed write to the store leaves it unchanged; partial writes are not modelled.
- Records lacking a topic or content, which Python renders as "None" in the document text, are not modelled: every loaded record is a well-formed knowledge record.
