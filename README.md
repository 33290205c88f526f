# neo-quesdon: a verified model of the answer pipeline and the client state machinery

neo-quesdon is a question box for Misskey, CherryPick and Mastodon users: people
send questions to a user, the user answers them, and each answer is posted to the
user's own instance. This project models, in Dafny, the parts of the repository
that carry logic:

- **The answer pipeline** (`QuestionsAction`, over the `Store` backend). `postAnswer`
  does the following in order:
  - checks the session token, the question id, the answer and the question's owner;
  - inserts a provisional answer;
  - optionally posts a note (Misskey, CherryPick) or a status (Mastodon), with a
    content warning and a body built from the question;
  - deletes the provisional answer again if that post fails;
  - otherwise deletes the question, recounts the user's questions, and publishes
    `question-deleted-event` and then `answer-created-event`.

  A 401/403 reply from the instance raises the user's session generation
  (`jwtIndex`), which revokes every issued session. `deleteQuestion` is the same
  ownership-checked delete-and-publish in miniature. The backend is a class whose
  fields are the database tables, the login-session keys, the broker's publication
  log and the outbox of federated posts. Each server action is a method, proved equal
  to a specification function of the old state; the lemmas state its properties.
- **The connection supervisor** (`MainHeader.Header`). A periodic tick:
  - reconnects a dead socket while fewer than five retries have been used;
  - stops itself after the fifth retry;
  - probes a live socket.

  Opening a socket resets the counter, and at most one socket is live at a time. The
  WebSocket message switch forwards events to the page.
- **Client reducers**, each mapping the previous UI state to the next:
  - the main layout's notifications, answer feed, pagination cursor and profile
    (`MainLayout`);
  - the pending-question list (`QuestionsPage`);
  - the answer form: the whitespace check, the optimistic removal and the debounced
    draft (`QuestionCard`);
  - the block list (`BlockTable`);
  - the settings body and the mute-list normalisation (`SettingsPage`);
  - `convertHost` and the login dispatch (`LoginPage`).
- **The Misskey login callback** (`MisskeyCallback`). It consumes the one-time
  session, upserts the user and profile under `@username@host`, and issues the
  session token with the stored generation.

Shared helpers: `Text` holds JavaScript's white-space class, `trim`, `split`/`join`,
ASCII `toLowerCase` and decimal rendering. `Lists` holds `filter` and `map` with
their order and idempotence lemmas. `Dto` holds the client-side records, the
`{ ...prev, ...patch }` profile merge and the WebSocket event names.

Several behaviours are modelled exactly as the code has them, and lemmas exhibit them:
- The supervisor's period is computed once, when the interval is armed.
- `onAnswerDeleted` lowers `unread_count` on every call, even when nothing matched.
  The count can go negative (`MainLayout.DeleteFromNotisCountNotIdempotent`).
- A new answer arriving on a null feed is dropped: the feed becomes `[]`
  (`MainLayout.NullFeedDropsAnswer`). The same holds for a new question on a missing
  list (`QuestionsPage.NewQuestionOnMissingList`).
- A question removed optimistically is not restored when posting fails
  (`QuestionCard.FailedPostDoesNotRestore`).
- The handle pattern's optional `:` stays in the result
  (`LoginPage.ColonHandleKeepsColon`).
- A login for an unknown instance fails only after the login session has been
  consumed.
- `_header.tsx` takes a `setUserProfile` prop and owns its `loginChecked`, while
  `layout.tsx` renders it with other props. Each file is modelled as written, on its
  own.

## Model

| member | source | states |
|---|---|---|
| QuestionsAction.PostTitle | src/app/main/questions/action.ts:80-94 | NSFW gives the fixed warning; otherwise the title is `Q: <question> #neo_quesdon`, and the question can be read back from it |
| QuestionsAction.PostText | src/app/main/questions/action.ts:80-94 | the body starts with a `質問者:` line exactly when the questioner is non-empty; a `Q:` line follows exactly when NSFW; it always ends with `A: <answer>\n#neo_quesdon <url>` |
| QuestionsAction.TruncateCw | src/app/main/questions/action.ts:177-179 | a CW longer than 100 becomes its first 90 characters + `.....`; one of 100 or fewer is unchanged; the result never exceeds 100 |
| QuestionsAction.TruncateCwIdempotent | src/app/main/questions/action.ts:177-179 | truncating twice equals truncating once |
| QuestionsAction.MastodonVisibility | src/app/main/questions/action.ts:231-245 | public→public, home→unlisted, followers→private, anything else→public, each as an if-and-only-if |
| QuestionsAction.Classify | src/app/main/questions/action.ts:198-207 | 401/403 is a revocation, 2xx an acceptance, every other status or a network failure a rejection |
| QuestionsAction.AfterReplyMonotone | src/app/main/questions/action.ts:198-207 | a reply never lowers any `jwtIndex`, raises the user's by exactly one iff it is a revocation, and leaves every other user alone; any reply other than a revocation leaves the whole table as loaded |
| QuestionsAction.RecordReply | src/app/main/questions/action.ts:198-207 | succeeds iff the reply is an acceptance; only the user table changes, per the revocation rule |
| QuestionsAction.MkMisskeyNote | src/app/main/questions/action.ts:157-212 | sends one note with the truncated CW, the text and the visibility, to the user's host; the reply is handled as in RecordReply |
| QuestionsAction.MastodonToot | src/app/main/questions/action.ts:214-274 | sends one status with the untruncated title as spoiler text and the mapped visibility; the reply is handled as in RecordReply |
| QuestionsAction.CheckRequest | src/app/main/questions/action.ts:37-65 | exactly the requests without a valid token get 401; exactly the tokened ones with a null or 0 id get 400; a valid answer to another user's question throws, and only those; a stopped request never succeeds; the request proceeds iff it has a token, an id, a valid answer, and a question owned by the caller whose user, instance and profile rows exist, and it then carries those rows |
| QuestionsAction.PostAnswer | src/app/main/questions/action.ts:30-155 | the new backend state and result are those of the specification function, and the backend stays well formed |
| QuestionsAction.SendPost | src/app/main/questions/action.ts:77-115 | the adapter runs only while posting is on and the instance kind has one; the step succeeds iff no adapter ran or the reply was accepted |
| QuestionsAction.Supersede | src/app/main/questions/action.ts:118-152 | deletes the question, then publishes the deletion (count taken after the delete) and then the answer |
| QuestionsAction.PostAnswerEarlyExit | src/app/main/questions/action.ts:37-49 | a request stopped by a check writes nothing and creates no answer |
| QuestionsAction.PostAnswerWithoutAdapter | src/app/main/questions/action.ts:77-109 | with posting off or no adapter, nothing is sent, no user changes and the pipeline goes on to succeed |
| QuestionsAction.PostAnswerCompensation | src/app/main/questions/action.ts:95-115 | a failed post throws after sending exactly the one post built for the instance kind; the answers are as before, the question stays open and nothing is published; a plain rejection changes no user, and a revocation changes them only as AfterReply does |
| QuestionsAction.PostAnswerAccepted | src/app/main/questions/action.ts:95-124 | an accepted post succeeds with the provisional answer's id, sends exactly the one post built for the instance kind, and changes no user |
| QuestionsAction.PostAnswerSuccess | src/app/main/questions/action.ts:66-152 | on success the answer copies question and questioner and names the caller; the question is gone; exactly two events follow, the deletion with the post-delete count first |
| QuestionsAction.PostAnswerJwtIndexMonotone | src/app/main/questions/action.ts:198-207 | whatever happens, no user's `jwtIndex` decreases and no user appears or disappears |
| QuestionsAction.PostAnswerRevocation | src/app/main/questions/action.ts:260-264 | a revocation raises the caller's `jwtIndex` by one and the request still fails |
| QuestionsAction.DeleteQuestion | src/app/main/questions/action.ts:276-304 | fails without writing on a bad token, a missing or a foreign question; otherwise removes the question and publishes exactly one `question-deleted-event` with the count after the delete |
| Store.QuestionCountAfterDelete | src/app/main/questions/action.ts:118-124 | deleting one of a user's questions lowers that user's count by exactly one |
| MainHeader.CloseSocket | src/app/main/_header.tsx:57-60 | closing leaves a socket closing or closed, and does nothing to one already closing or closed |
| MainHeader.TickSpec | src/app/main/_header.tsx:131-146 | a tick opens a connection iff the interval is armed, the socket is absent or CLOSED and fewer than five retries were used; a cleared interval does nothing |
| MainHeader.AtMostFiveReconnects | src/app/main/_header.tsx:133-141 | over any run of ticks without an open, the counter stays at most five and at most five minus its start reconnections happen |
| MainHeader.SixthTickGivesUp | src/app/main/_header.tsx:134-141 | from a fresh counter with the socket always dead, five ticks reconnect five times and the sixth stops the supervisor |
| MainHeader.Header.Tick | src/app/main/_header.tsx:133-146 | the tick of TickSpec on the header: a reconnect appends a connecting socket as current and closes the one held before, every other socket unchanged; giving up or probing leaves the sockets alone, only a probe counts one; the period, profile, count, login flag and toast never change |
| MainHeader.Header.Start | src/app/main/_header.tsx:127-150 | nothing before the login is checked; then the interval is armed with period `5000 + counter*2000`, computed once, a first socket opens as current and the one held before is closed; profile, count, login flag, probes, bus, toast and counter stay as they were |
| MainHeader.Header.Connect | src/app/main/_header.tsx:56-60 | the held socket is closed before a new connecting one becomes current, so at most one socket is live |
| MainHeader.Header.SocketOpened | src/app/main/_header.tsx:100-104 | the held socket becomes OPEN and the counter resets to 0; nothing else changes |
| MainHeader.Header.SocketClosed | src/app/main/_header.tsx:105-112 | close and error events mark the held socket CLOSED; nothing else changes |
| MainHeader.Header.OnMessage | src/app/main/_header.tsx:61-98 | question events replace the count with `question_numbers` and forward the update; question-created shows the toast and arms its timer, question-deleted hides it; answer-created is only forwarded; answer-deleted, keep-alive and unknown names change nothing; the sockets, supervisor and login flag never change |
| MainHeader.Header.OnProfileUpdate | src/app/main/_header.tsx:115-125 | an absent profile stays absent, a present one takes the update's fields; the count is replaced only when the update carries one; nothing else changes |
| MainHeader.Header.ProfileFetched | src/app/main/_header.tsx:160-168 | the fetched profile is stored, the count taken from it (or null), and the login marked checked; nothing else changes |
| MainHeader.Header.Teardown | src/app/main/_header.tsx:151-157 | clears the toast timer and the interval, closes the socket only when it is OPEN, and leaves the profile, count, login flag, toast, period and counter as they were |
| Dto.ParseEvNameRoundTrip | src/app/main/_header.tsx:63-97 | each event name decodes to its own kind |
| Dto.ParseEvName | src/app/main/_header.tsx:63-97 | a decoded name is exactly that kind's text; an undecoded one is no kind's text |
| Dto.MergeNoChange | src/app/main/layout.tsx:113-119 | an update carrying nothing leaves the profile as it was |
| Dto.MergeIdempotent | src/app/main/layout.tsx:113-119 | applying the same update twice equals applying it once |
| Dto.MergeQuestionsOnly | src/app/main/_header.tsx:67 | a count-only update changes only the count |
| MainLayout.OnNotiEv | src/app/main/layout.tsx:81-109 | an answer notification is prepended and counts one more unread (1 after nothing); read-all keeps the list with count 0; delete-all empties it; an unknown name changes nothing |
| MainLayout.AnswerNotisCount | src/app/main/layout.tsx:84-91 | a run of answer notifications adds exactly its length to the unread count and lists them newest first |
| MainLayout.ReadAllClearsCount | src/app/main/layout.tsx:93-100 | after read-all nothing is unread and the list is kept |
| MainLayout.InitialFetch | src/app/main/layout.tsx:50-58 | an empty first page ends loading with an empty feed; otherwise the feed is the page and the cursor its last id |
| MainLayout.OnFetchMore | src/app/main/layout.tsx:123-133 | an empty page only ends loading; a non-empty page is appended after the old feed and moves the cursor to its last id; a null feed stays null |
| MainLayout.FetchMoreCursorIsLast | src/app/main/layout.tsx:130-131 | after a non-empty page the cursor is the id of the feed's last answer |
| MainLayout.OnAnswerCreated | src/app/main/layout.tsx:135-140 | a hidden answer changes nothing; a visible one is prepended to a present feed; a null feed becomes empty |
| MainLayout.NullFeedDropsAnswer | src/app/main/layout.tsx:139 | on a null feed the visible answer is not in the result |
| MainLayout.DeleteFromFeed | src/app/main/layout.tsx:143-149 | every answer with the id goes; every other answer stays, as often as it occurred and in its order; a null feed stays null |
| MainLayout.DeleteFromFeedIdempotent | src/app/main/layout.tsx:143-149 | deleting twice equals deleting once |
| MainLayout.CreateThenDelete | src/app/main/layout.tsx:135-149 | an answer created and then deleted leaves a present feed as it was |
| MainLayout.DeleteFromNotis | src/app/main/layout.tsx:150-159 | only answer notifications for the id go; every other notification stays, as often as it occurred and in its order; an absent box stays absent; the count drops by one |
| MainLayout.DeleteFromNotisRepeat | src/app/main/layout.tsx:150-159 | a repeated delete keeps the list but lowers the count again |
| MainLayout.DeleteFromNotisCountNotIdempotent | src/app/main/layout.tsx:156 | from an empty box with count 0, two deletes give counts -1 and -2 |
| MainLayout.ProfileFetched | src/app/main/layout.tsx:45-49 | the fetched profile is stored, the count taken from it or 0, and the login marked checked |
| MainLayout.OnProfileUpdate | src/app/main/layout.tsx:111-121 | an absent profile stays absent, a present one takes the update's fields; the count is replaced only when the update carries one |
| MainLayout.CountUpdateKeepsProfile | src/app/main/layout.tsx:111-121 | a count-only update changes only the count |
| QuestionsPage.FetchQuestions | src/app/main/questions/page.tsx:16-31 | a list comes back iff the status is ok and the body parses; all other statuses except 401 report the error |
| QuestionsPage.OnNewQuestion | src/app/main/questions/page.tsx:42-46 | a new question is prepended to a present list; a missing list becomes empty |
| QuestionsPage.OnDeleteQuestion | src/app/main/questions/page.tsx:48-52 | every question with the id goes; every other question stays, as often as it occurred and in its order; a missing list stays missing |
| QuestionsPage.OnDeleteQuestionIdempotent | src/app/main/questions/page.tsx:51 | the same delete twice equals it once |
| QuestionsPage.NewThenDelete | src/app/main/questions/page.tsx:42-52 | a question that arrives and is then deleted leaves the list as it was |
| QuestionsPage.NewQuestionOnMissingList | src/app/main/questions/page.tsx:45 | the first question on a missing list is dropped; the next one is kept |
| QuestionCard.OnSubmit | src/app/_components/question.tsx:73-103 | an answer of white space only is refused with the error set; otherwise the list without the question (every other question kept, as often and in the order it occurred) is in place when the answer is posted with the form's values; loading ends either way and a throw closes the modal |
| QuestionCard.FailedPostDoesNotRestore | src/app/_components/question.tsx:90-102 | after a failed post the question is still missing from the list |
| QuestionCard.OnCtrlEnter | src/app/_components/question.tsx:56-69 | Ctrl/Meta+Enter runs the submission exactly when the field passes its rules and the modal is closed; every other key press is ignored |
| QuestionCard.ShortcutPostsOnlyValidAnswers | src/app/_components/question.tsx:56-103 | an answer posted from the keyboard is 1 to 2000 characters and not white space only, and the list shown is the old one without the question |
| QuestionCard.ShortcutWhitespaceRefused | src/app/_components/question.tsx:56-82 | a white-space answer within the length rules passes the shortcut's guard and is then refused with the field's error, nothing posted |
| QuestionCard.NoDoubleSubmit | src/app/_components/question.tsx:64-96 | after a post that did not throw the modal is open, so the next shortcut press does nothing |
| QuestionCard.PlainKeyIgnored | src/app/_components/question.tsx:57 | no key press without Ctrl or Meta submits |
| QuestionCard.DraftKey | src/app/_components/question.tsx:135-136 | the key is `draftAnswer:` followed by the question id in decimal |
| QuestionCard.DraftKeyInjective | src/app/_components/question.tsx:122 | distinct questions get distinct keys |
| QuestionCard.SaveDraft | src/app/_components/question.tsx:132-140 | a non-empty text is stored under the key; anything else writes nothing |
| QuestionCard.RestoredAnswer | src/app/_components/question.tsx:120-127 | a stored non-empty draft replaces the field; otherwise the field is kept |
| QuestionCard.SaveThenRestore | src/app/_components/question.tsx:120-140 | a saved draft is what the next mount restores |
| QuestionCard.EmptyTextKeepsDraft | src/app/_components/question.tsx:135 | an empty text leaves the earlier draft in place |
| QuestionCard.SaveLeavesOtherDrafts | src/app/_components/question.tsx:120-141 | saving one question's draft leaves what every other question restores unchanged |
| QuestionCard.DraftSaver.OnTextChanged | src/app/_components/question.tsx:111-118 | the pending save is replaced by one for the new text, so at most one is pending, and nothing is written yet |
| QuestionCard.DraftSaver.TimerFired | src/app/_components/question.tsx:115-117 | the pending save runs once, as SaveDraft |
| QuestionCard.DraftSaver.Unmount | src/app/_components/question.tsx:106-110 | unmounting cancels the pending save |
| LoginPage.FirstUrl | src/app/page.tsx:69-70 | finds the leftmost position where `//` and a host character start, or reports that there is none |
| LoginPage.FirstHandle | src/app/page.tsx:71-72 | finds the leftmost position where `:?@` and a tail free of `@` and white space reach the end, or reports that there is none |
| LoginPage.UrlMatchText | src/app/page.tsx:69-74 | the URL match without its slashes is the host run |
| LoginPage.HandleHost | src/app/page.tsx:77-78 | the handle match without `@` is the tail, behind the colon when there is one |
| LoginPage.ConvertHost | src/app/page.tsx:68-83 | the result is lowercase; the URL branch comes first and yields the host run without `/` or `@`; the handle branch yields the tail (colon kept) without `@`; otherwise the input lower-cased |
| LoginPage.ConvertHostIdempotent | src/app/page.tsx:68-83 | converting a converted host changes nothing |
| LoginPage.HandleGivesHost | src/app/page.tsx:71-80 | `p@host` with no colon before the last `@` converts to the host lower-cased |
| LoginPage.ColonHandleKeepsColon | src/app/page.tsx:71 | `p:@host` converts to `:host` lower-cased |
| LoginPage.OnSubmit | src/app/page.tsx:97-141 | only an address that is non-empty and contains `.` is submitted; the converted host is remembered and misskey/cherrypick, mastodon, other types and detection failure each lead to their own route or message |
| SettingsPage.StripDelimiters | src/app/main/settings/page.tsx:41 | drops a leading `/`, then cuts what follows exactly where a `/` with at most six flag letters ends the word, if such a suffix exists; the result is a prefix of it and nothing is cut otherwise |
| SettingsPage.StripRegexLiteral | src/app/main/settings/page.tsx:41 | `/pattern/flags` with at most six flags gives back the pattern, whatever it holds |
| SettingsPage.StripUndelimited | src/app/main/settings/page.tsx:41 | a word without a leading `/` or trailing `/flags` is unchanged |
| SettingsPage.NormalizeMuteList | src/app/main/settings/page.tsx:37-41 | there are never more entries than input lines |
| SettingsPage.MuteListOfLine | src/app/main/settings/page.tsx:37-41 | a single line contributes nothing when blank, otherwise its trimmed text with the delimiters stripped |
| SettingsPage.MuteListOfLines | src/app/main/settings/page.tsx:37-41 | the list of `line + "\n" + rest` is the line's entries followed by the rest's |
| SettingsPage.SlashLineGivesEmptyWord | src/app/main/settings/page.tsx:40-41 | a line holding only `/` survives the filter and becomes an empty word |
| SettingsPage.MuteListRoundTrip | src/app/main/settings/page.tsx:37-41 | joining canonical words with line feeds and normalising gives them back |
| SettingsPage.SettingsBody | src/app/main/settings/page.tsx:30-42 | an empty box name becomes `質問箱`; the four flags and the visibility are copied; the mute list is the normalised text |
| SettingsPage.UpdateUserSettings | src/app/main/settings/page.tsx:29-59 | the profile update is announced iff the reply is ok, and otherwise the error is reported |
| SettingsPage.AnnouncedUpdateApplies | src/app/main/settings/page.tsx:55 | the announced update sets the sent settings and keeps handle and count |
| SettingsPage.FormFromProfile | src/app/main/settings/page.tsx:85-98 | the form shows the stored flags, box name and visibility, and the mute list joined with line feeds |
| SettingsPage.UnchangedFormRoundTrip | src/app/main/settings/page.tsx:85-98 | saving the form as loaded writes the profile back unchanged, when the box has a name and the words are canonical |
| BlockTable.Unblock | src/app/main/settings/_table.tsx:23-41 | success removes every entry with the id and keeps every other, as often as it occurred and in its order; failure keeps the list and shows the error; loading ends either way |
| BlockTable.UnblockIdempotent | src/app/main/settings/_table.tsx:39 | a second successful unblock of the same id leaves the list as the first did |
| BlockTable.PageRequest | src/app/main/settings/_table.tsx:65 | always 30 entries, DESC, and the cursor only when it is set and non-empty |
| BlockTable.OnPage | src/app/main/settings/_table.tsx:65-72 | a failed fetch changes nothing; an empty page only ends loading; a non-empty page is appended and moves the cursor to its last id |
| BlockTable.PagesAppendInOrder | src/app/main/settings/_table.tsx:70-71 | pages loaded one after another appear in order after the old entries, and the cursor ends at the last page's last id |
| MisskeyCallback.UserHandle | src/app/misskey-callback/actions.ts:47 | the handle is exactly `@`, the username, `@` and the host |
| MisskeyCallback.DisplayName | src/app/misskey-callback/actions.ts:49-57 | the name resolved from `name ?? username`, or `[username]` when that resolves to nothing; never empty |
| MisskeyCallback.PushDB | src/app/misskey-callback/actions.ts:140-175 | the user row and its profile are created or updated together under the handle |
| MisskeyCallback.Login | src/app/misskey-callback/actions.ts:17-98 | the new backend state and result are those of the specification function, and the backend stays well formed |
| MisskeyCallback.LoginEarlyExit | src/app/misskey-callback/actions.ts:19-29 | an invalid request or a missing session fails and changes nothing |
| MisskeyCallback.LoginConsumesSession | src/app/misskey-callback/actions.ts:27-32 | once the session is found it is deleted, whatever happens next |
| MisskeyCallback.SecondLoginFails | src/app/misskey-callback/actions.ts:27-32 | a second login with the same callback token fails with no session and changes nothing |
| MisskeyCallback.FailedLoginWritesNoUser | src/app/misskey-callback/actions.ts:36-45 | a failed login changes nothing but the session keys, and only removes them |
| MisskeyCallback.LoginSuccess | src/app/misskey-callback/actions.ts:24-82 | the host is lower-cased; the handle is `@username@host`; the rows hold the resolved name, token, user id and avatar (or ""); the token carries the stored generation; other users are untouched |
| MisskeyCallback.ReturningUser | src/app/misskey-callback/actions.ts:143-158 | a known user keeps handle, host, account, lower-case account and `jwtIndex`, the token carries that `jwtIndex`, and its profile keeps `stopPostAnswer` |
| MisskeyCallback.NewUser | src/app/misskey-callback/actions.ts:159-174 | a new user gets every payload field and generation 0, with a matching profile |
| Text.SplitJoin | src/app/main/settings/page.tsx:94 | `join` then `split` on a separator no piece contains gives the pieces back |
| Text.SplitLength | src/app/main/settings/page.tsx:38 | `split` yields one more piece than there are separators |
| Lists.FilterIdempotent | src/app/main/layout.tsx:145 | filtering twice with the same test equals filtering once |
| Lists.FilterKeepsOrder | src/app/main/layout.tsx:145 | a filtered list is a subsequence of the original |
| Lists.FilterMultiset | src/app/main/layout.tsx:145 | a filtered list holds each accepted element as often as the original and no other |
| Text.IntToStringInjective | src/app/_components/question.tsx:122 | distinct ids render as distinct decimal strings |

## Left out

- Rendering: JSX, modals, toasts, `alert` and the IntersectionObserver wiring are not modelled. The toast's 8-second timer is one flag; an earlier timer, when overwritten, is not tracked.
- The real network, database (Prisma), key-value store (Redis), cookies and browser storage are out of scope. They appear as the `Store.Backend` fields, as maps, or as inputs: the adapter's reply, the instance's login reply, HTTP statuses and parsed bodies. The publish/subscribe broker only appends to a log.
- The private `i` token of a Misskey note (a SHA-256 of token and app secret), `verifyToken`, `generateJwt` and `validateStrict` are opaque. They enter as an optional caller handle, validity flags and a `Jwt` record of the claims.
- The emoji name resolver (`fetchNameWithEmoji`) is a function parameter of the Misskey login.
- The follow-refresh job queued after a login, the logging, `Date.now` and the cookie expiry dates are not modelled.
- `QuestionsAction.PostAnswer`: the profile lookup after the delete (lines 126-137) is not modelled. The profile is known to exist at that point, so it cannot throw, and its answer-author DTO is not part of the published answer record.
- Concurrency is out of scope: async interleavings of React state updates and concurrent server requests. Every operation is one sequential step; the two set-state calls of one handler land together.
- The header's socket domain: sending on a CONNECTING socket is allowed in the model, where the browser would throw. Messages from a socket that is no longer current are not modelled.
- JavaScript strings are `seq<char>`. `.length` counts UTF-16 code units in the source and characters here. `toLowerCase` is modelled on ASCII letters only.
- The schema defaults assumed for a created user are `jwtIndex` 0 and `stopPostAnswer` false. `prisma/schema.prisma` is not part of this model.
- Every WebSocket message is assumed to be well formed: its `ev_name` matches its payload.
- `src/app/main/_events.ts` is not part of this model. Its dispatch is taken to be a synchronous call of the listeners.
