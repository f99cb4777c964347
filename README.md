# HVTSocial core, modelled and verified in Dafny

HVTSocial is a social network. Its backend is an Express server over SQL Server or PostgreSQL, with Socket.IO for chat, presence and notifications. Its frontend is a React app. This project models the logic of that system that can be stated exactly. The model has three parts.

- **Validators, classifiers and string rewriters.** This part covers:
  - the content-moderation rule engine (keyword, spam, caps and URL rules);
  - the notification type mapper;
  - the `@param` to `$n` query rewriter of the database adapter;
  - the upload file filters, magic-number checks and quotas;
  - request validation in the story, post, admin and call-history controllers;
  - the URL normalisers (`toAbsoluteUrl`, `getFullImageUrl`, `cleanUrl`);
  - image-list parsing;
  - email template rendering;
  - the regular-expression rewrites of the model-fixing script.
- **State machines over small tables.** Each service keeps its rules in SQL. Here each table is a map or a sequence of records held by a class, and the class's methods do what the service's queries do. This covers:
  - friendship requests;
  - account status (suspend, deactivate, soft-delete, anonymise);
  - GDPR export and deletion requests;
  - login lockout, OTP attempts and refresh-token rotation;
  - like and save toggles;
  - notification read state;
  - chat messages: read, recall, edit and DM de-duplication;
  - the e-mail queue;
  - the windowed rate limiter;
  - socket presence;
  - the comment reply tree.
- **Client-side list and window operations.** This covers:
  - chat pagination windows and batch loading;
  - story navigation across author groups;
  - recent-chat reordering and message search;
  - edit-image reordering and de-duplication;
  - the story-creation dialog;
  - the notification page's filters and list updates.

The database, the clock, random numbers, password hashing, regular-expression engines and outgoing e-mail are parameters. Timestamps are integers in milliseconds. JavaScript values the code tests for truthiness are modelled as `Option`s: a missing, `null`, empty or zero value is `None`. Strings are sequences of characters.

Shared modules:

| module | provides |
|---|---|
| `Wrappers` | `Option` and `Result` |
| `Text` | ASCII case folding, trimming, `split`/`join` with JavaScript semantics, substring tests, replace-all, number formatting |
| `Seqs` | filtering, and a stable insertion sort for `Array.prototype.sort` and SQL `ORDER BY` |
| `Json` | `JSON.stringify` and `JSON.parse`, with their round trip |
| `JsObjects` | the key order of plain objects |

The model-fixing script `Backend/fix_all_models.py` processes `userModel.js`, `notificationModel.js` and `postModel.js`, skips a file that does not exist, and writes every existing file back whether or not a rule matched (`FixAllModels`).

## Model

| member | source | states |
|---|---|---|
| Moderation.FirstContained | Backend/services/contentModerationService.js:100-109 | the index of the first keyword, from a start index on, that the content contains; none exactly when no later keyword is contained |
| Moderation.CheckKeywordRule | Backend/services/contentModerationService.js:97-110 | the match is the first of the comma-separated, trimmed, lower-cased keywords, in the rule's order, that is contained in the content; no match exactly when no keyword is contained |
| Moderation.BlankKeywordMatchesAll | Backend/services/contentModerationService.js:98-101 | a blank first keyword (as a trailing comma leaves) matches every content |
| Moderation.NonSpaceRun | Backend/services/contentModerationService.js:143 | the greedy `[^\s]+` run: no white space inside, and it ends at white space or at the end |
| Moderation.UrlAt | Backend/services/contentModerationService.js:143 | a URL match starts with `http://` or `https://` and stays inside the content |
| Moderation.UrlCount | Backend/services/contentModerationService.js:143-144 | the number of URL matches is bounded by the length of the rest of the content |
| Moderation.Words | Backend/services/contentModerationService.js:154 | the white-space split yields non-empty words |
| Moderation.Keys | Backend/services/contentModerationService.js:155-161 | the numerically counted keys are exactly the words of the content the counting predicate accepts (as written: longer than three UTF-16 code units and not an inherited `Object.prototype` name) |
| Moderation.FirstRepeated | Backend/services/contentModerationService.js:163-170 | the entry found has a count above 5 and no earlier entry does; none when no entry does |
| Moderation.SpamCheckBy | Backend/services/contentModerationService.js:141-184 | the three tests in order; more than three URLs give the message `N URLs found` |
| Moderation.SpamCheck | Backend/services/contentModerationService.js:141-184 | as written (words naming an inherited `Object.prototype` property never get a numeric count): more than three URLs give the message `N URLs found` |
| Moderation.SpamCheckIntended | Backend/services/contentModerationService.js:155-161 | as intended, every word longer than three UTF-16 code units is counted: more than three URLs give the message `N URLs found` |
| Moderation.SpamCheckByPasses | Backend/services/contentModerationService.js:141-184 | content passes exactly when it has at most three URLs, no counted word more than five times and capitals not above half of more than ten letters |
| Moderation.SpamCheckPasses | Backend/services/contentModerationService.js:141-184 | as written, content passes exactly when it has at most three URLs, no long word other than an inherited property name more than five times, and capitals not above half of more than ten letters |
| Moderation.SpamCheckIntendedPasses | Backend/services/contentModerationService.js:141-184 | as intended, content passes exactly when it has at most three URLs, no long word more than five times, and capitals not in excess |
| Moderation.PrototypeWordPasses | Backend/services/contentModerationService.js:157-161 | content whose only excess is an inherited property name (such as `constructor`) written more than five times passes as written and is flagged as intended |
| Moderation.PrototypeNamesLong | Backend/services/contentModerationService.js:156 | every inherited property name is longer than three code units, so the length test lets it through |
| Moderation.AstralWordLong | Backend/services/contentModerationService.js:158 | `word.length` counts UTF-16 code units: a word of two characters above U+FFFF (two emoji) is long enough to be counted |
| Moderation.CountMapSnoc | Backend/services/contentModerationService.js:157-161 | one more counted word bumps its own count (or adds it with 1), and any word changes no other count |
| Moderation.CountWords | Backend/services/contentModerationService.js:155-161 | the counting loop yields the occurrence count of every long word that does not name an inherited property, and those keys in first-occurrence order |
| Moderation.CountStep | Backend/services/contentModerationService.js:157-161 | the loop body takes the tally of the first i words to that of the first i+1 |
| Moderation.FindRepeated | Backend/services/contentModerationService.js:163-170 | the search over the entries returns the first repeated word |
| Moderation.CheckSpamRule | Backend/services/contentModerationService.js:141-184 | the spam method computes the as-written spam verdict |
| Moderation.CheckRule | Backend/services/contentModerationService.js:72-92 | keyword rules see lower-cased content, spam rules the content as written; `ai_filter` and unknown types never match |
| Moderation.CheckRuleMethod | Backend/services/contentModerationService.js:72-92 | the method gives the rule function's verdict |
| Moderation.EvaluateStopsAtRemoval | Backend/services/contentModerationService.js:41-59 | the violations are exactly the matching rules up to and including the first matching `auto_remove` rule |
| Moderation.ScanStep | Backend/services/contentModerationService.js:41-59 | one loop step: no match moves on, a match is recorded and an `auto_remove` match ends the scan |
| Moderation.ScanDone | Backend/services/contentModerationService.js:41-59 | when every rule has been checked the violations are complete |
| Moderation.CheckContent | Backend/services/contentModerationService.js:37-67 | the rule loop with its break returns the summary of the ordered evaluation |
| Moderation.Summarize | Backend/services/contentModerationService.js:61-66 | the outcome carries the first violation's action and severity, or `approve` with no severity |
| Moderation.ApproveIffNoMatch | Backend/services/contentModerationService.js:41-66 | no violation is recorded exactly when no rule matches |
| Moderation.UncheckedRulesApprove | Backend/services/contentModerationService.js:85-90 | rules of unchecked types always approve |
| Moderation.ModeratePost | Backend/services/contentModerationService.js:191-235 | a post is refused exactly for an `auto_remove` outcome; it is logged when there are violations, removed with reason `Automatic moderation: <rule>`, and flagged or warned with the first rule's name |
| Moderation.ModerateComment | Backend/services/contentModerationService.js:240-273 | a comment is refused exactly for `auto_remove`; only `auto_remove` and `flag` give an action other than approved; the author is never warned |
| Moderation.PostRefusedIffFirstRemoves | Backend/services/contentModerationService.js:37-67 | a post is refused exactly when the first violation comes from an `auto_remove` rule |
| Moderation.DetectSpam | Backend/services/contentModerationService.js:401-444 | the count is the number of the user's posts or comments newer than the window, and the content is spam exactly when the count reaches the threshold |
| NotificationHelper.SafeType | Backend/helpers/notificationHelper.js:15-22 | the stored type is always one the database check constraint allows |
| NotificationHelper.AliasesMapped | Backend/helpers/notificationHelper.js:15-19 | `friend_accept`, `reply` and `share` map to `friend_request`, `comment` and `other` |
| NotificationHelper.SafeTypeCases | Backend/helpers/notificationHelper.js:21-22 | an allowed type is kept and any other non-alias becomes `other` |
| NotificationHelper.SafeTypeIdempotent | Backend/helpers/notificationHelper.js:15-22 | mapping a type twice equals mapping it once |
| NotificationHelper.RequestFor | Backend/helpers/notificationHelper.js:12-79 | nothing is created without both user and sender ids; otherwise the service call has the safe type and goes from the sender to the recipient |
| NotificationHelper.FriendTexts | Backend/helpers/notificationHelper.js:45-55 | an accepted friendship and a new request get their two different texts |
| NotificationHelper.OtherDefaults | Backend/helpers/notificationHelper.js:66-75 | the `other` branch supplies the default text and a null post for missing values |
| NotificationHelper.EmitNotification | Backend/helpers/notificationHelper.js:8-100 | events are emitted only with a socket server and after the service returned a notification; then `new_notification` with it and `unread_count` with the count go to room `user_<userId>`, and the notification is returned, or, when the count fails, only `new_notification` is emitted and null returned; without a socket server the notification is returned with no event; a failed guard returns null with no event |
| NotificationHelper.EmitsInOrder | Backend/helpers/notificationHelper.js:81-93 | with a socket server and no failure, `new_notification` is emitted first and `unread_count` second |
| DbAdapter.Entries | Backend/config/db-adapter.js:28 | `Object.entries` yields one entry per key |
| DbAdapter.FirstParamReplaced | Backend/config/db-adapter.js:29-30 | the first whole-word `@key` is replaced by `$n` and the text before it is kept |
| DbAdapter.AbsentParamUnchanged | Backend/config/db-adapter.js:29-30 | a query without a whole-word `@key` is left unchanged |
| DbAdapter.LongerNameUntouched | Backend/config/db-adapter.js:29 | the word boundary keeps `@user` from matching inside `@userId` |
| DbAdapter.TopAt | Backend/config/db-adapter.js:38 | a `TOP n` match has a positive length and non-empty digits |
| DbAdapter.IdentityAt | Backend/config/db-adapter.js:39 | an `IDENTITY(a, b)` match stays inside the query |
| DbAdapter.FirstTop | Backend/config/db-adapter.js:42 | the first `TOP` match of the original query yields non-empty digits |
| DbAdapter.GetdateBecomesNow | Backend/config/db-adapter.js:37 | `GETDATE()` in any letter case becomes `NOW()` |
| DbAdapter.Convert | Backend/config/db-adapter.js:18-48 | without inputs the query is returned unchanged with no values; otherwise the values are the inputs' values in order, the query is bound and rewritten, and ` LIMIT n` is appended for a `TOP n` only when no `LIMIT` is present |
| DbAdapter.BindWithoutPlaceholders | Backend/config/db-adapter.js:28-33 | binding a query with no placeholders for the keys leaves it unchanged |
| DbAdapter.ConvertQueryToPostgreSQL | Backend/config/db-adapter.js:18-48 | the parameter loop plus rewrites compute the conversion |
| DbAdapter.PostgreSQLRequest.constructor | Backend/config/db-adapter.js:55-58 | a new request has no inputs |
| DbAdapter.PostgreSQLRequest.Input | Backend/config/db-adapter.js:60-65 | the value is stored under its name (the last one wins), a new name is appended to the key order, and the request itself is returned |
| DbAdapter.PostgreSQLRequest.Query | Backend/config/db-adapter.js:67-68 | the pool receives the conversion of the query with the request's inputs |
| DbAdapter.KeyOrderStable | Backend/config/db-adapter.js:124-126 | filling an object in its own enumeration order gives that order back |
| DbAdapter.RefilledEntries | Backend/config/db-adapter.js:124-128 | a request filled in enumeration order has the same entries as the inputs object |
| DbAdapter.FillRequest | Backend/config/db-adapter.js:124-126 | every entry of the inputs is passed to `input`, in enumeration order |
| DbAdapter.ExecuteQuery | Backend/config/db-adapter.js:119-129 | the request converts the query with exactly the entries of `inputs` |
| ChatSocket.Registered | Backend/sockets/chatSocket.js:17-20 | the socket joins its user's set and no other user's set changes |
| ChatSocket.Disconnected | Backend/sockets/chatSocket.js:30-37 | the socket leaves its user's set, an emptied set is dropped, and other users are untouched |
| ChatSocket.RegisteredNonEmpty | Backend/sockets/chatSocket.js:17-20 | registering keeps every tracked set non-empty |
| ChatSocket.DisconnectedNonEmpty | Backend/sockets/chatSocket.js:33-37 | a disconnect keeps every tracked set non-empty |
| ChatSocket.RegisterThenDisconnect | Backend/sockets/chatSocket.js:12-40 | opening and closing a new socket leaves presence as it was |
| ChatSocket.Presence.constructor | Backend/sockets/chatSocket.js:5 | presence starts empty |
| ChatSocket.Presence.IsUserOnline | Backend/sockets/chatSocket.js:244-247 | a user is online exactly when they have a tracked socket |
| ChatSocket.Presence.RegisterUser | Backend/sockets/chatSocket.js:12-24 | the socket is recorded for the user, and `online` is broadcast only on the change from offline |
| ChatSocket.Presence.Disconnect | Backend/sockets/chatSocket.js:27-40 | an unregistered socket changes nothing; otherwise it leaves its user's set, and `offline` is broadcast exactly when the set empties |
| ChatSocket.SendPayload | Backend/sockets/chatSocket.js:60-75 | an unregistered socket gets `not_registered`, a missing or zero chat id `invalid_params`; the sender is the socket's user and defaults fill the type and content |
| ChatSocket.SenderCannotBeForged | Backend/sockets/chatSocket.js:59-64 | whatever the message holds, the stored sender is the socket's user |
| ChatSocket.NotificationText | Backend/sockets/chatSocket.js:105-110 | a text message gives its first 50 characters; an image and anything else give their fixed texts |
| ChatSocket.UpdatesForMembers | Backend/sockets/chatSocket.js:129-139 | one `recent_chat_updated` per chat member, with unread increment 0 for the sender and 1 for others |
| ChatSocket.Receivers | Backend/sockets/chatSocket.js:103 | the receivers are exactly the members other than the sender |
| ChatSocket.UnreadIncrements | Backend/sockets/chatSocket.js:112-143 | across all updates, the sender is told 0 and everyone else 1 |
| ChatSocket.UpdatesPerReceiver | Backend/sockets/chatSocket.js:112-143 | the member loop runs once per receiver, so there are receivers times members updates |
| RateLimiting.Endpoint | Backend/middlewares/advancedRateLimiting.js:33-40 | the configured endpoint when it is set and non-empty, otherwise the request path |
| RateLimiting.CeilSeconds | Backend/middlewares/advancedRateLimiting.js:157-162 | `Math.ceil(ms / 1000)`: the least whole number of seconds covering the milliseconds |
| RateLimiting.RateLimitHeaders | Backend/middlewares/advancedRateLimiting.js:153-164 | limit, used and reset in seconds; remaining is 0 when exceeded and otherwise never negative; `Retry-After` only when exceeded |
| RateLimiting.LatestActive | Backend/middlewares/advancedRateLimiting.js:54-68 | the row found is active for the user and endpoint and has the latest window start (ties by table order); none exactly when no row is active |
| RateLimiting.Step | Backend/middlewares/advancedRateLimiting.js:36-147 | no user falls back to the IP limiter; a failing database lets the request through unchanged; no active window inserts one counting 1; a full window refuses with 429 and leaves the table; otherwise the count is incremented by one |
| RateLimiting.StepKeepsCounts | Backend/middlewares/advancedRateLimiting.js:95-127 | no request pushes a window's count over the limit |
| RateLimiting.Burst | Backend/middlewares/advancedRateLimiting.js:36-147 | a burst of n requests has n outcomes |
| RateLimiting.BurstWindow | Backend/middlewares/advancedRateLimiting.js:70-127 | a burst opens exactly one window, and after n requests it counts min(n, max) |
| RateLimiting.BurstFirst | Backend/middlewares/advancedRateLimiting.js:70-92 | the first request of a burst opens the window with count 1 |
| RateLimiting.BurstStep | Backend/middlewares/advancedRateLimiting.js:95-127 | each later request of the burst finds the burst's window |
| RateLimiting.BurstAdmits | Backend/middlewares/advancedRateLimiting.js:95-137 | within one window at most `max` requests pass: a burst of n admits min(n, max) |
| RateLimiting.TrackingTable.constructor | Backend/middlewares/advancedRateLimiting.js:60-61 | the tracking table starts empty |
| RateLimiting.TrackingTable.Limit | Backend/middlewares/advancedRateLimiting.js:36-147 | the table and the outcome change exactly as one limiter step says |
| Ownership.CheckOwnership | Backend/middlewares/ownershipMiddleware.js:12-57 | a failing query gives 500, a missing row 404 with the resource's message, a non-owner 403 and the owner passes |
| Ownership.OwnershipIff | Backend/middlewares/ownershipMiddleware.js:12-285 | the post, comment and message ownership checks refuse exactly the non-owners, with 403 |
| Ownership.HasAcceptedFriendship | Backend/middlewares/ownershipMiddleware.js:157-170 | the friendship query finds an accepted row in either direction exactly when the two are friends |
| Ownership.CheckPostAccess | Backend/middlewares/ownershipMiddleware.js:107-195 | the owner always passes; public posts pass; private posts are refused with 403; friends-only posts pass exactly for friends; any other privacy passes |
| Ownership.FriendsSymmetric | Backend/middlewares/ownershipMiddleware.js:164-167 | friendship counts in both directions |
| Ownership.RefusedViewer | Backend/middlewares/ownershipMiddleware.js:132-184 | a refused viewer is never the owner, and the post is private or friends-only with no friendship |
| Ownership.CheckChatAccess | Backend/middlewares/ownershipMiddleware.js:200-238 | only the two members of the chat pass; anyone else gets 403 |
| Ownership.CheckProfileOwnership | Backend/middlewares/ownershipMiddleware.js:289-306 | only a request for one's own numeric profile id passes |
| Ownership.CheckAdminRole | Backend/middlewares/ownershipMiddleware.js:312-325 | only a user with role `admin` passes; everyone else gets 403 |
| Ownership.CounterCache.constructor | Backend/middlewares/ownershipMiddleware.js:337 | the cache starts empty |
| Ownership.CounterCache.Incr | Backend/middlewares/ownershipMiddleware.js:338 | a missing key counts from 0; the count is stored and returned |
| Ownership.CounterCache.Expire | Backend/middlewares/ownershipMiddleware.js:342 | the key's time to live is set and the counts are kept |
| Ownership.CounterCache.CheckActionLimit | Backend/middlewares/ownershipMiddleware.js:331-366 | the per-user action key is incremented, given a one-hour expiry on its first use, and the request is refused with 429 exactly when the count exceeds the maximum (100 when none is given); a failing cache lets it through |
| Rbac.RoleByName | Backend/services/rbacService.js:34-40 | the role found has the name; none exactly when no role has it |
| Rbac.AssignRole | Backend/services/rbacService.js:116-149 | an unknown role throws `Role '<name>' not found`; a role already held changes nothing ("Role already assigned"); otherwise one row is inserted; afterwards the user holds the role |
| Rbac.AssignIdempotent | Backend/services/rbacService.js:116-149 | assigning a role twice is assigning it once |
| Rbac.WithoutRole | Backend/services/rbacService.js:163-174 | the delete removes exactly the rows of this user and role |
| Rbac.RemoveRole | Backend/services/rbacService.js:154-181 | an unknown role throws; otherwise every (user, role) row is deleted and the rows affected are counted |
| Rbac.RemoveRevokes | Backend/services/rbacService.js:154-181 | with unique role names the removed role is no longer held, and other users' rows are kept |
| Rbac.IsResourceOwner | Backend/services/rbacService.js:187-211 | only posts, comments and stories are known resource types; others throw `Unknown resource type`; for each of the three the answer is whether its table has a row with that id owned by the user |
| Rbac.CanPerformAction | Backend/services/rbacService.js:217-233 | an `.any` permission grants; otherwise an `.own` permission with a resource id asks for ownership; otherwise the plain permission decides |
| Rbac.OwnPermissionNeedsOwnership | Backend/services/rbacService.js:224-229 | an `own` permission on a post grants the action exactly to the post's owner |
| Rbac.RoleStore.constructor | Backend/services/rbacService.js:116 | the store starts with the catalogue and no assignments |
| Rbac.RoleStore.Assign | Backend/services/rbacService.js:116-149 | the store changes exactly as `AssignRole` says, and the error leaves it unchanged |
| Rbac.RoleStore.Remove | Backend/services/rbacService.js:154-181 | the store changes exactly as `RemoveRole` says and the rows affected are returned |
| Auth.EmailExamples | Backend/controllers/authController.js:54-55 | the email pattern accepts `a@b.co` and refuses `a@b`, `a@@b.c` and `@b.c` |
| Auth.FirstConflict | Backend/controllers/authController.js:72-81 | the first user whose email or username clashes; none exactly when nobody clashes |
| Auth.RegisterCheck | Backend/controllers/authController.js:46-95 | every refusal is a 400; missing fields come first; a clean pass means all fields present, a valid email, a password of at least six UTF-16 code units (`password.length`) and no clash |
| Auth.AstralPasswordLongEnough | Backend/controllers/authController.js:63-65 | `password.length` counts UTF-16 code units: a password of three characters above U+FFFF (three emoji) passes the length rule |
| Text.Utf16Length | Backend/controllers/authController.js:63 | a string's `length` in UTF-16 code units is at least its number of characters and at most twice that |
| Text.Utf16LengthBmp | Backend/controllers/authController.js:63 | within the Basic Multilingual Plane the code-unit length equals the number of characters |
| Text.Utf16LengthAstral | Backend/controllers/authController.js:63 | characters above U+FFFF count two code units each |
| Auth.EmailClashFirst | Backend/controllers/authController.js:83-94 | a clash on email is reported before a clash on username |
| Auth.ByEmail | Backend/controllers/authController.js:161-166 | the user found has the email; none exactly when nobody has it |
| Auth.ById | Backend/controllers/authController.js:384-390 | the user found has the id; none exactly when nobody has it |
| Auth.LoginCheck | Backend/controllers/authController.js:152-180 | a login passes only for a user with the email whose stored hash matches the password; with both fields given any refusal is 401 with the same message |
| Auth.LoginDoesNotRevealEmails | Backend/controllers/authController.js:166-180 | an unknown email and a wrong password get the same answer |
| Auth.GenerateOtp | Backend/controllers/authController.js:226 | the code is six digits with value 100000 plus the random draw |
| Auth.CheckOtp | Backend/controllers/authController.js:299-316 | five or more attempts lock the reset; a code is accepted exactly when it is present, unexpired and equal |
| Auth.Reset | Backend/controllers/authController.js:267-358 | missing fields and an unknown email change nothing; a locked account is refused with the attempts message; a wrong, missing or expired code is refused and counts exactly one attempt; an accepted code stores the new hash and clears the code and the attempts |
| Auth.ByEmailSameEmails | Backend/controllers/authController.js:278-289 | updating a user without changing emails leaves every email lookup where it was |
| Auth.WrongCodeFacts | Backend/controllers/authController.js:299-326 | with fewer than five attempts counted, a wrong code is rejected and counting it adds one |
| Auth.WrongCodesCount | Backend/controllers/authController.js:317-326 | `n` calls with the same wrong code, up to the limit, count exactly `n` attempts on the user and change nothing else |
| Auth.FiveWrongCodesLock | Backend/controllers/authController.js:299-326 | after five calls with a wrong code on a fresh OTP, a call with any code, the right one included, is refused with the attempts message and changes nothing |
| Auth.WrongCodesLock | Backend/controllers/authController.js:299-326 | wrong codes that use up the remaining attempts leave the reset locked: any later code is refused with the attempts message and the table is unchanged |
| Auth.LockedRefuses | Backend/controllers/authController.js:299-307 | a user whose attempts reached five is refused with the attempts message whatever the code, and nothing changes |
| Auth.RevokeUser | Backend/controllers/authController.js:453-456 | every token of the user is revoked and no other row changes |
| Auth.RevokeToken | Backend/controllers/authController.js:499-503 | every row holding the token is revoked and no other row changes |
| Auth.ByToken | Backend/controllers/authController.js:442-450 | the first row holding the token; none exactly when no row holds it |
| Auth.ReuseRevokesAll | Backend/controllers/authController.js:453-458 | after reuse detection the user has no live token |
| Auth.AuthStore.constructor | Backend/controllers/authController.js:41 | the store starts empty |
| Auth.OrNull | Backend/controllers/authController.js:113-114 | a missing or empty value is stored as null, any other as given |
| Auth.AuthStore.Register | Backend/controllers/authController.js:41-149 | a refused registration changes nothing and gives the check's reply; otherwise the user is inserted with the hashed password, an empty birth date or gender stored as null, and answered with 201 with every column but the password |
| Auth.AuthStore.IssueToken | Backend/controllers/authController.js:9-35 | a refresh token valid for seven days is inserted |
| Auth.AuthStore.Login | Backend/controllers/authController.js:152-197 | a refused login changes nothing; a good one issues a token and returns every column of the user but the password, the reset OTP, its expiry and attempt count included |
| Auth.AuthStore.RequestResetOtp | Backend/controllers/authController.js:202-260 | no email gives 400; an unknown email gets the same 200 and nothing changes; a known one stores a six-digit code valid five minutes, resets the attempts and mails the code |
| Auth.AuthStore.ResetPasswordWithOtp | Backend/controllers/authController.js:267-358 | the reply and the users table are those of `Reset`; tokens and the outbox are unchanged |
| Auth.AuthStore.ChangePassword | Backend/controllers/authController.js:364-433 | the password changes exactly when both fields are given, the user exists and the current password matches |
| Auth.AuthStore.RefreshToken | Backend/controllers/authController.js:436-492 | no token gives 400 and an unknown one 403; a revoked one revokes all of its user's tokens; an expired one is refused; a live one is rotated, the old row revoked and pointing to its replacement |
| Auth.AuthStore.Logout | Backend/controllers/authController.js:495-509 | the presented token, if any, is revoked and the answer is 200 |
| Auth.RotatedTokenIsReuse | Backend/controllers/authController.js:474-484 | after rotation the old token is revoked and records its replacement, so presenting it again counts as reuse |
| Friendship.FirstBetween | Backend/services/friendshipService.js:10-22 | the first row relating the two users in either direction; none exactly when no row does |
| Friendship.FirstDirected | Backend/services/friendshipService.js:62-71 | the first row from one user to the other, whatever its status |
| Friendship.SendRefusal | Backend/services/friendshipService.js:22-33 | only the first related row is judged; the refusal is one of the three messages, and unrelated users are never refused |
| Friendship.SendRefusedIffRelated | Backend/services/friendshipService.js:22-33 | with the known statuses, sending is refused exactly when the users are already related in either direction |
| Friendship.AcceptPending | Backend/services/friendshipService.js:55-62 | exactly the pending requests from the friend become accepted, stamped now |
| Friendship.DeleteRequests | Backend/services/friendshipService.js:86-92 | exactly the pending requests in that direction are deleted (also lines 135-141) |
| Friendship.DeleteFriendship | Backend/services/friendshipService.js:111-116 | exactly the accepted rows in either direction are deleted |
| Friendship.StatusOf | Backend/services/friendshipService.js:154-192 | `none` exactly when no row relates them; `pending_sent` and `pending_received` only with a request in that direction |
| Friendship.StatusSymmetric | Backend/services/friendshipService.js:154-192 | the two users agree on their relation, and a request one sent is one the other received |
| Friendship.SendKeepsValid | Backend/services/friendshipService.js:9-46 | sending keeps at most one row per pair |
| Friendship.AcceptKeepsValid | Backend/services/friendshipService.js:49-74 | accepting keeps at most one row per pair |
| Friendship.SubsetKeepsValid | Backend/services/friendshipService.js:80-148 | deleting rows keeps at most one row per pair |
| Friendship.RequestWithdrawn | Backend/services/friendshipService.js:9-46 | a request cancelled or rejected right after it was sent leaves the table as before (also lines 129-148) |
| Friendship.AcceptMakesFriends | Backend/services/friendshipService.js:49-74 | once a pending request is accepted both users see each other as friends (also lines 154-192) |
| Friendship.UnfriendSeparates | Backend/services/friendshipService.js:105-123 | after unfriending, with one row per pair, the users are no longer related (also lines 154-192) |
| Friendship.FriendshipStore.constructor | Backend/services/friendshipService.js:9 | the table starts empty |
| Friendship.FriendshipStore.SendFriendRequest | Backend/services/friendshipService.js:9-46 | a refusal throws its message and changes nothing; otherwise one pending row is inserted and returned |
| Friendship.FriendshipStore.AcceptFriendRequest | Backend/services/friendshipService.js:49-74 | pending requests from the friend are accepted; it fails exactly when no row in that direction exists, and otherwise returns that row |
| Friendship.FriendshipStore.RejectFriendRequest | Backend/services/friendshipService.js:80-99 | fails and changes nothing exactly when no pending request from the friend exists; otherwise deletes those requests |
| Friendship.FriendshipStore.Unfriend | Backend/services/friendshipService.js:105-123 | fails and changes nothing exactly when no accepted row relates them; otherwise deletes those rows |
| Friendship.FriendshipStore.CancelFriendRequest | Backend/services/friendshipService.js:129-148 | fails and changes nothing exactly when no pending request to the friend exists; otherwise deletes those requests |
| AccountManagement.Suspended | Backend/services/accountManagementService.js:35-42 | the row becomes `suspended`, stamped now, with the reason, end and suspender; no other column changes |
| AccountManagement.Unsuspended | Backend/services/accountManagementService.js:77-84 | the row becomes `active` with every suspension column cleared; no other column changes |
| AccountManagement.UnsuspendForgetsSuspension | Backend/services/accountManagementService.js:25-105 | lifting a suspension leaves nothing of it behind |
| AccountManagement.ExpiryRule | Backend/services/accountManagementService.js:121-130 | a permanent suspension never expires, a timed one expires exactly after its end, and an active account has nothing to expire |
| AccountManagement.Deactivated | Backend/services/accountManagementService.js:168-172 | the row becomes `deactivated` with the reason kept in `suspension_reason`; no other column changes |
| AccountManagement.Reactivated | Backend/services/accountManagementService.js:203-207 | only a deactivated account changes, back to `active` with no reason |
| AccountManagement.ReactivateRules | Backend/services/accountManagementService.js:162-227 | deactivating then reactivating gives an active account, and reactivation never lifts a suspension or a deletion |
| AccountManagement.SoftDeleted | Backend/services/accountManagementService.js:240-244 | the row becomes `deleted` with the reason; no other column changes |
| AccountManagement.Anonymized | Backend/services/accountManagementService.js:283-298 | the row becomes `deleted` with the anonymous email, username and name, password `DELETED` and every personal column cleared; the suspension history is kept |
| AccountManagement.AnonymizeForgets | Backend/services/accountManagementService.js:283-298 | two accounts with the same id and suspension history are identical once anonymised, and anonymising twice is anonymising once |
| AccountManagement.IsAccountActive | Backend/services/accountManagementService.js:381-406 | a user is active exactly when the row exists with status `active` |
| AccountManagement.ActiveAfterTransitions | Backend/services/accountManagementService.js:25-406 | suspended, deactivated, deleted and anonymised accounts are not active; unsuspended and reactivated ones are |
| AccountManagement.Scrubbed | Backend/services/accountManagementService.js:313-322 | the user's posts or comments get the removal text and lose their media; other rows stay |
| AccountManagement.WithoutMessagesFrom | Backend/services/accountManagementService.js:304 | exactly the messages the user sent are deleted |
| AccountManagement.WithoutNotificationsOf | Backend/services/accountManagementService.js:307 | exactly the notifications to or from the user are deleted |
| AccountManagement.WithoutStoriesOf | Backend/services/accountManagementService.js:310 | exactly the user's stories are deleted |
| AccountManagement.AccountStore.constructor | Backend/services/accountManagementService.js:25 | the tables start empty |
| AccountManagement.AccountStore.SuspendAccount | Backend/services/accountManagementService.js:25-67 | only the user's row changes, as `Suspended` says |
| AccountManagement.AccountStore.UnsuspendAccount | Backend/services/accountManagementService.js:72-105 | only the user's row changes, as `Unsuspended` says |
| AccountManagement.AccountStore.CheckSuspensionExpiry | Backend/services/accountManagementService.js:110-133 | reports expiry exactly for a suspended account past its end, and then lifts the suspension |
| AccountManagement.AccountStore.DeactivateAccount | Backend/services/accountManagementService.js:162-193 | only the user's row changes, as `Deactivated` says |
| AccountManagement.AccountStore.ReactivateAccount | Backend/services/accountManagementService.js:198-227 | only the user's row changes, as `Reactivated` says |
| AccountManagement.AccountStore.SoftDeleteAccount | Backend/services/accountManagementService.js:234-265 | only the user's row changes, as `SoftDeleted` says |
| AccountManagement.AccountStore.AnonymizeAccount | Backend/services/accountManagementService.js:271-342 | the row is anonymised, the user's messages, notifications and stories are deleted, and their posts and comments are blanked |
| AccountManagement.AccountStore.HardDeleteAccount | Backend/services/accountManagementService.js:348-374 | the user's row is deleted and nothing else changes |
| AccountManagement.AnonymizedLeavesNoTrace | Backend/services/accountManagementService.js:304-322 | after anonymisation the touched tables hold no message, notification or story of the user, and their posts carry only the removal text |
| Gdpr.Redacted | Backend/services/gdprService.js:186-189 | the exported profile has every column except the sensitive ones, with unchanged values |
| Gdpr.OwnedByExact | Backend/services/gdprService.js:192-233 | each exported list holds exactly the user's rows, each as often as in the table, newest first |
| Gdpr.CollectUserData | Backend/services/gdprService.js:177-247 | a missing profile makes the collection fail; otherwise the profile is the redacted row |
| Gdpr.ExportRedacted | Backend/services/gdprService.js:186-189 | no password, second-factor secret or reset code leaves in an export, and every other column does |
| Gdpr.UpdateExports | Backend/services/gdprService.js:95-99 | exactly the rows with the id change (also lines 130-137, 156-161) |
| Gdpr.FirstExport | Backend/services/gdprService.js:103-107 | the first export request with the id; none exactly when no row has it |
| Gdpr.ProcessExportSettles | Backend/services/gdprService.js:89-172 | processing ends `completed`, returning a file that expires in seven days and holds no sensitive column, or `failed`; other requests are untouched |
| Gdpr.FirstInProgress | Backend/services/gdprService.js:32-42 | the first request of the user pending or processing within the last 24 hours; none exactly when there is none |
| Gdpr.FirstOpen | Backend/services/gdprService.js:279-288 | the first pending or approved deletion request of the user; none exactly when there is none |
| Gdpr.Approve | Backend/services/gdprService.js:338-346 | only a pending request with the id becomes approved, with reviewer and time |
| Gdpr.Reject | Backend/services/gdprService.js:378-388 | only a pending request with the id becomes rejected, with reviewer, time and reason |
| Gdpr.Complete | Backend/services/gdprService.js:443-450 | the requests with the id become completed, stamped now |
| Gdpr.FirstApproved | Backend/services/gdprService.js:418-428 | the first approved request with the id; none exactly when there is none |
| Gdpr.ReviewFollowsLifecycle | Backend/services/gdprService.js:333-409 | approving and rejecting follow the lifecycle pending → approved/rejected and keep one open request per user |
| Gdpr.CompleteFollowsLifecycle | Backend/services/gdprService.js:414-471 | completing an approved request with a unique id follows the lifecycle and closes it |
| Gdpr.RequestKeepsOneOpen | Backend/services/gdprService.js:274-328 | a new deletion request is created only when none is open, which keeps one open request per user |
| Gdpr.GdprStore.constructor | Backend/services/gdprService.js:27 | the request tables start empty |
| Gdpr.GdprStore.ProcessDataExport | Backend/services/gdprService.js:89-172 | the export tables change exactly as `ProcessExport` says |
| Gdpr.GdprStore.RequestDataExport | Backend/services/gdprService.js:27-84 | refused with the existing id while an export of the last day is in progress; otherwise a pending request is created and processed at once |
| Gdpr.GdprStore.RequestDataDeletion | Backend/services/gdprService.js:274-328 | refused with the existing id while a request is open; otherwise a pending request is created |
| Gdpr.GdprStore.ApproveDeletionRequest | Backend/services/gdprService.js:333-368 | the deletion table changes exactly as `Approve` says |
| Gdpr.GdprStore.RejectDeletionRequest | Backend/services/gdprService.js:373-409 | the deletion table changes exactly as `Reject` says |
| Gdpr.GdprStore.ProcessDeletion | Backend/services/gdprService.js:414-471 | only an approved request is carried out and then completed: anonymising (the default) rewrites the user's row and removes the user's messages, notifications and stories and scrubs their posts and comments, as `anonymizeAccount` does; deleting removes the user's row and nothing else; a request not found or not approved throws and leaves requests and accounts unchanged |
| EmailService.OrEmpty | Backend/services/emailService.js:44 | a present value is used as it is and an absent one becomes the empty string |
| EmailService.PlaceholderLen | Backend/services/emailService.js:43 | a recognised placeholder spans at least its braces and key and stays inside the text |
| EmailService.RenderTemplate | Backend/services/emailService.js:38-51 | the result is the substituted template followed once by the footer |
| EmailService.ExpandLiteral | Backend/services/emailService.js:44 | a value without `$` is inserted as it is |
| EmailService.ExpandPatterns | Backend/services/emailService.js:44 | `$$` gives one `$`, `$&` the placeholder, `$'` the text after it and `` $` `` the text before it |
| EmailService.ExpandBeforeIrrelevant | Backend/services/emailService.js:44 | without `` $` `` the replacement does not depend on the text before the match |
| EmailService.PlaceholderRecognised | Backend/services/emailService.js:42-45 | every `{{ key }}` with any white space around a plain key is matched in full and replaced by the expansion of the value, or of the empty string when the value is falsy |
| EmailService.PlaceholderShape | Backend/services/emailService.js:43 | whatever the pattern matches is a placeholder for the key with white space only around it |
| EmailService.ReplaceAtPlaceholder | Backend/services/emailService.js:43-44 | for a value without `` $` ``, a placeholder at the front is replaced by the expanded value and the rest is rendered on its own |
| EmailService.ReplaceSkipsText | Backend/services/emailService.js:43-44 | for a value without `` $` ``, text where no placeholder for the key starts is copied unchanged |
| EmailService.UnmatchedUntouched | Backend/services/emailService.js:42-45 | placeholders whose key has no entry are left untouched |
| EmailService.PlainTemplate | Backend/services/emailService.js:38-51 | a template without placeholders renders to itself followed once by the footer |
| EmailService.TemplateNamed | Backend/services/emailService.js:22-33 | the first active template with that name; none exactly when there is none |
| EmailService.SendTemplatedEmail | Backend/services/emailService.js:56-92 | as written: a missing template is the `not found` error; otherwise the body is rendered with the footer, and the subject ends with the footer too |
| EmailService.SubjectCarriesFooter | Backend/services/emailService.js:66 | as written, a plain subject goes out with the HTML footer appended |
| EmailService.SendTemplatedEmailIntended | Backend/services/emailService.js:56-92 | intended: same errors and body, but only the body carries the footer |
| EmailService.IntendedSubjectVerbatim | Backend/services/emailService.js:66 | intended: a subject without placeholders goes out verbatim |
| EmailService.ScheduledFirstTotal | Backend/services/emailService.js:279 | ordering by schedule time is a total preorder |
| EmailService.DueRowsSpec | Backend/services/emailService.js:273-280 | the candidates are exactly the pending, due rows with attempts left, each as often as in the table, in order of schedule |
| EmailService.SelectionSpec | Backend/services/emailService.js:271-282 | at most `limit` due rows are selected, the earliest scheduled ones, in order of schedule |
| EmailService.AfterAttempt | Backend/services/emailService.js:298-327 | a successful send makes the row `sent` with its send time; a failure counts one attempt more, records the error, and makes the row `failed` exactly when the attempts reach the maximum |
| EmailService.AttemptOutcome | Backend/services/emailService.js:298-327 | a due row leaves the queue for good on success and on its last allowed failure; otherwise it stays pending with one attempt more |
| EmailService.UpdateById | Backend/services/emailService.js:299-327 | exactly the rows with the id change |
| EmailService.Applied | Backend/services/emailService.js:289-336 | the attempts change no row's id and no length |
| EmailService.Position | Backend/services/emailService.js:289 | the first selected row with the id; none exactly when there is none |
| EmailService.AppliedEffect | Backend/services/emailService.js:289-336 | with distinct selected rows, each selected row is attempted exactly once and every other row is left as it was |
| EmailService.AppliedKeepsIds | Backend/services/emailService.js:289-336 | the ids stay unique and below the next id |
| EmailService.SelectionDistinct | Backend/services/emailService.js:271-282 | with unique ids no row is selected twice |
| EmailService.NewEmail | Backend/services/emailService.js:229-243 | a queued e-mail is pending with no attempts, scheduled at the given time or now |
| EmailService.NewEmailDue | Backend/services/emailService.js:238 | a queued e-mail is due exactly from its scheduled time on, when any attempt is allowed (also lines 276-278) |
| EmailService.Cleaned | Backend/services/emailService.js:370-379 | exactly the rows that are not sent or failed and created more than `daysOld` days ago are kept |
| EmailService.CleanedKeepsIds | Backend/services/emailService.js:370-379 | cleaning keeps the ids unique and below the next id |
| EmailService.CleanKeepsPending | Backend/services/emailService.js:376-378 | pending rows are never cleaned away |
| EmailService.EmailQueue.constructor | Backend/services/emailService.js:229 | the queue starts empty with the default attempt limit |
| EmailService.EmailQueue.QueueEmail | Backend/services/emailService.js:229-261 | the new row is appended with the next id and returned |
| EmailService.EmailQueue.ProcessEmailQueue | Backend/services/emailService.js:266-348 | the number processed is the selection's size, and each queue row ends as its attempt says, or unchanged when not selected |
| EmailService.EmailQueue.AttemptAll | Backend/services/emailService.js:289-336 | the rows are attempted in order, each with its outcome |
| EmailService.EmailQueue.CleanEmailQueue | Backend/services/emailService.js:370-389 | the queue becomes `Cleaned` and the count is the number of deleted rows |
| LikeService.Toggle | Backend/services/likeService.js:8-72 | an existing like is deleted with every matching row and reported `unliked`, leaving none; otherwise one row is added and reported `liked` |
| LikeService.ToggleTwice | Backend/services/likeService.js:8-72 | two toggles restore whether the like exists, restore the table exactly from the unliked state, and report opposite actions |
| LikeService.ToggleIsolated | Backend/services/likeService.js:21-33 | a toggle changes no other user's or target's like (also lines 55-68) |
| LikeService.LikeStore.constructor | Backend/services/likeService.js:4 | the likes table starts empty |
| LikeService.LikeStore.Find | Backend/services/likeService.js:12-19 | the lookup finds rows exactly when the like exists (also lines 46-53) |
| LikeService.LikeStore.ToggleLike | Backend/services/likeService.js:8-72 | the table and the answer are those of `Toggle` |
| LikeService.LikeStore.TogglePostLike | Backend/services/likeService.js:8-37 | a post like toggles as `Toggle` says |
| LikeService.LikeStore.ToggleCommentLike | Backend/services/likeService.js:42-72 | a comment like toggles as `Toggle` says |
| LikeService.LikeStore.CheckUserLikedPost | Backend/services/likeService.js:99-111 | true exactly when a like of the user on the post exists |
| SavedPostService.Toggle | Backend/services/savedPostService.js:8-46 | a saved post is unsaved with every matching row deleted; otherwise one row stamped now is added; the reported action says which |
| SavedPostService.ToggleTwice | Backend/services/savedPostService.js:8-46 | two toggles restore whether the post is saved, and from the unsaved state the table itself |
| SavedPostService.ToggleIsolated | Backend/services/savedPostService.js:24-42 | a toggle changes no other user-post pair |
| SavedPostService.ImageUrls | Backend/services/savedPostService.js:90 | an absent or empty media column gives no URL; any other gives at least one |
| SavedPostService.ImageUrlsRoundTrip | Backend/services/savedPostService.js:90 | the URLs joined by `;` give back the media column, and none holds a `;` |
| SavedPostService.NewestSavedTotal | Backend/services/savedPostService.js:82 | ordering by save time, newest first, is a total preorder |
| SavedPostService.SavedOf | Backend/services/savedPostService.js:78-82 | exactly the user's saved rows whose post and author exist, each as often as in the table |
| SavedPostService.CountFor | Backend/services/savedPostService.js:74-76 | the count of rows for the post: zero exactly when no row names it, and never more than the rows |
| SavedPostService.ToItem | Backend/services/savedPostService.js:87-102 | an item carries the post's id, content, `;`-split media and creation time, the save time, the like, comment and share counts of the post, and its author's id, full name, username and avatar as `profile_picture` |
| SavedPostService.SavedPostsPage | Backend/services/savedPostService.js:51-103 | with page 1 and limit 10 when not given, a negative offset or a non-positive count is refused by the database; otherwise the page is the window at `(page - 1) * limit` of the user's saved posts |
| SavedPostService.PageItems | Backend/services/savedPostService.js:87-102 | exactly `n` items, each built from its saved row, its post, the post's author and the post's counts |
| SavedPostService.PageNewestFirst | Backend/services/savedPostService.js:82-84 | within a page, items are newest saved first |
| SavedPostService.SavedPostStore.constructor | Backend/services/savedPostService.js:4 | the saved-posts table starts empty |
| SavedPostService.SavedPostStore.ToggleSavePost | Backend/services/savedPostService.js:8-46 | the table and the answer are those of `Toggle` |
| SavedPostService.SavedPostStore.CheckUserSavedPost | Backend/services/savedPostService.js:108-121 | true exactly when the user saved the post |
| CommentService.OrdersTotal | Backend/services/commentService.js:29 | newest-first and oldest-first are total preorders (also line 73) |
| CommentService.Sorted | Backend/services/commentService.js:26-29 | the listing holds exactly the selected rows, each as often as in the table (also lines 70-73) |
| CommentService.WithCounts | Backend/services/commentService.js:19-47 | each row is listed with its author and its reply and like counts |
| CommentService.ListingSpec | Backend/services/commentService.js:8-91 | a listing holds every selected row and nothing else, ordered as asked |
| CommentService.CommentsByPostSpec | Backend/services/commentService.js:8-48 | the post's listing holds exactly its top-level comments by existing authors, newest first |
| CommentService.RepliesSpec | Backend/services/commentService.js:53-91 | the reply listing holds exactly the comment's direct replies by existing authors, oldest first |
| CommentService.CommentById | Backend/services/commentService.js:236-246 | the first comment with the id; none exactly when there is none |
| CommentService.Grow | Backend/services/commentService.js:206-211 | one step of the recursive query only adds ids |
| CommentService.TreeFrom | Backend/services/commentService.js:206-211 | the recursion ends in a reply-closed set of existing ids holding its start |
| CommentService.Tree | Backend/services/commentService.js:206-211 | the tree of an existing comment holds it and every reply at any depth; that of a missing one is empty |
| CommentService.TreeFromLeast | Backend/services/commentService.js:206-211 | the recursion adds nothing but descendants |
| CommentService.TreeLeast | Backend/services/commentService.js:206-211 | the tree lies inside every reply-closed set that holds the root |
| CommentService.DeleteTree | Backend/services/commentService.js:205-227 | exactly the comments of the tree and the likes on them are deleted |
| CommentService.DeleteTreeSpec | Backend/services/commentService.js:205-227 | the comment is gone, no remaining comment replies to a deleted one, no remaining like is on one, and every comment outside the tree is kept |
| CommentService.GrandchildDeleted | Backend/services/commentService.js:206-226 | a reply to a reply of the deleted comment goes with it |
| CommentService.CommentStore.constructor | Backend/services/commentService.js:4 | the comment and like tables start empty |
| CommentService.CommentStore.CreateComment | Backend/services/commentService.js:96-138 | the row is inserted with the next id; the answer holds the row and its author with zero counts, or fails for a missing author with the row already stored |
| CommentService.CommentStore.UpdateComment | Backend/services/commentService.js:143-170 | refused unless the caller owns the comment; then every row with the id gets the new content and update time, and nothing else changes |
| CommentService.CommentStore.DeleteComment | Backend/services/commentService.js:177-231 | refused unless the comment exists on an existing post and the caller owns the comment or the post; then the tree is deleted |
| NotificationService.OrDefault | Backend/services/notificationService.js:36-101 | a non-empty content is kept and an empty one replaced by the default text |
| NotificationService.TruthyPost | Backend/services/notificationService.js:88-101 | the post id is kept exactly when it is present and not zero |
| NotificationService.UnreadCountZero | Backend/services/notificationService.js:135-144 | the count is zero exactly when the user has no unread row, and never exceeds the table |
| NotificationService.MarkRead | Backend/services/notificationService.js:149-182 | exactly the picked rows become read and the rest are unchanged |
| NotificationService.MarkReadCount | Backend/services/notificationService.js:149-182 | marking read lowers a user's unread count by exactly the picked unread rows of that user |
| NotificationService.MarkAllReadSpec | Backend/services/notificationService.js:149-161 | afterwards the user has nothing unread, and every other user's count is unchanged |
| NotificationService.MarkAsReadSpec | Backend/services/notificationService.js:166-182 | only the named notification of the user changes, lowering only that user's count and by the matching unread rows |
| NotificationService.DeleteSpec | Backend/services/notificationService.js:187-212 | exactly the rows with that id that belong to the user are removed |
| NotificationService.DeleteAllSpec | Backend/services/notificationService.js:217-227 | the user is left with no rows and every other user's rows are kept |
| NotificationService.Show | Backend/services/notificationService.js:111-123 | the status reads `read` exactly for a read row and `unread` otherwise, with its id, content, type, post, target type and time; the sender's id, name and avatar come from the user with the actor's id, and are all null when there is none (`LEFT JOIN`) |
| NotificationService.Listing | Backend/services/notificationService.js:106-130 | exactly as many rows as the smaller of the user's row count and `limit` are listed |
| NotificationService.NewestFacts | Backend/services/notificationService.js:124-126 | the user's rows ordered newest first, each as often as in the table |
| NotificationService.ListingTopN | Backend/services/notificationService.js:124-127 | every row of the user that is not listed is no newer than any listed row |
| NotificationService.ListingSpec | Backend/services/notificationService.js:106-130 | the listing shows only the user's rows, newest first |
| NotificationService.NotificationStore.constructor | Backend/services/notificationService.js:3 | the table starts empty |
| NotificationService.NotificationStore.Insert | Backend/services/notificationService.js:25-30 | a new unread row with the next id is appended and returned |
| NotificationService.NotificationStore.CreateLikeNotification | Backend/services/notificationService.js:20-31 | a `like` row on the post with the fixed text |
| NotificationService.NotificationStore.CreateCommentNotification | Backend/services/notificationService.js:36-49 | a `comment` row on the post with the content or the default text |
| NotificationService.NotificationStore.CreateFriendRequestNotification | Backend/services/notificationService.js:54-66 | a `friend_request` row with no target, with the content or the default text |
| NotificationService.NotificationStore.CreateMessageNotification | Backend/services/notificationService.js:71-83 | a `message` row with no target; the chat id is not stored |
| NotificationService.NotificationStore.CreateOtherNotification | Backend/services/notificationService.js:88-101 | a `share` row, aimed at the post only for a truthy post id |
| NotificationService.NotificationStore.GetNotifications | Backend/services/notificationService.js:106-130 | the answer is the listing of the user with the given limit, or 50 when none is given, joined with the users table |
| NotificationService.NotificationStore.GetUnreadCount | Backend/services/notificationService.js:135-144 | the answer is the user's unread count |
| NotificationService.NotificationStore.MarkAllRead | Backend/services/notificationService.js:149-161 | every unread row of the user becomes read |
| NotificationService.NotificationStore.MarkAsRead | Backend/services/notificationService.js:166-182 | the user's row with the id becomes read |
| NotificationService.NotificationStore.DeleteNotification | Backend/services/notificationService.js:187-212 | the user's rows with the id are deleted |
| NotificationService.NotificationStore.DeleteAllNotifications | Backend/services/notificationService.js:217-227 | all the user's rows are deleted |
| ChatModel.OrElse | Backend/models/chatModel.js:160-164 | a non-empty field is kept and an empty one replaced by its default |
| ChatModel.ReplyContentRoundTrip | Backend/models/chatModel.js:158-167 | a reply is stored as JSON that parses back to the replied-to id, the defaulted reply fields and the message text |
| ChatModel.PlainContentVerbatim | Backend/models/chatModel.js:158 | a message that is not a reply is stored verbatim |
| ChatModel.NewMessage | Backend/models/chatModel.js:169-186 | the inserted row is `sent`, of type `text` by default, without media for an empty URL, and with the duration given |
| ChatModel.MarkMessagesRead | Backend/models/chatModel.js:197-213 | every message of the chat from someone else not yet read becomes `read`; nothing else changes |
| ChatModel.MarkReadEffect | Backend/models/chatModel.js:197-213 | nothing in the chat is unread for the reader afterwards, and every other chat's count is unchanged for everybody |
| ChatModel.UnreadAfterRead | Backend/models/chatModel.js:100-116 | reading a chat removes exactly that chat's part of the reader's unread total (also lines 197-213) |
| ChatModel.Recall | Backend/models/chatModel.js:216-232 | every row with the id shows `[recalled]`, loses its media and gets type `recalled`; nothing else changes |
| ChatModel.RecallIdempotent | Backend/models/chatModel.js:216-232 | recalling twice is recalling once, and sender, chat and read status are kept |
| ChatModel.Edit | Backend/models/chatModel.js:235-249 | every row with the id gets the new content; nothing else changes |
| ChatModel.FindDm | Backend/models/chatModel.js:309-323 | the largest id of a non-group chat whose members are exactly the pair; none exactly when there is none |
| ChatModel.FindDmSymmetric | Backend/models/chatModel.js:309-323 | the lookup does not depend on the order of the users |
| ChatModel.DmNameSymmetric | Backend/models/chatModel.js:287-288 | the new chat's name does not depend on the order of the users (also line 334) |
| ChatModel.CreatedDmFound | Backend/models/chatModel.js:325-355 | a chat just created is the one the lookup then finds, in either order of the users |
| ChatModel.IdsBelowNewDm | Backend/models/chatModel.js:336-351 | creating a chat with the next id keeps every id below the one after it |
| ChatModel.OldChatNotDm | Backend/models/chatModel.js:350-351 | adding the new chat's members makes no older chat a one-to-one chat |
| ChatModel.NewChatIsDm | Backend/models/chatModel.js:336-351 | the new chat with the pair as its only members is a one-to-one chat of the pair |
| ChatModel.FindDmLast | Backend/models/chatModel.js:309-323 | when only the last chat qualifies, the lookup finds it |
| ChatModel.ChatStore.constructor | Backend/models/chatModel.js:3 | the tables start empty |
| ChatModel.ChatStore.SendMessage | Backend/models/chatModel.js:144-194 | the new row is appended and the chat's update time stamped; nothing else changes |
| ChatModel.ChatStore.MarkRead | Backend/models/chatModel.js:197-213 | the messages change as `MarkMessagesRead` says |
| ChatModel.ChatStore.GetUnreadCount | Backend/models/chatModel.js:100-116 | the count of messages from others, still `sent` or `delivered`, over the chats the user is a member of |
| ChatModel.ChatStore.RecallMessage | Backend/models/chatModel.js:216-232 | the messages change as `Recall` says |
| ChatModel.ChatStore.EditMessage | Backend/models/chatModel.js:235-249 | the messages change as `Edit` says |
| ChatModel.ChatStore.GetOrCreateDm | Backend/models/chatModel.js:284-360 | the newest existing one-to-one chat of the pair is returned unchanged; otherwise a chat with the next id and both users as members is created |
| UploadSecurity.StripTrailingSlashes | Backend/middlewares/uploadSecurityMiddleware.js:67 | the name loses only its trailing `/` characters, as `path.extname` ignores them |
| UploadSecurity.LastSegment | Backend/middlewares/uploadSecurityMiddleware.js:67 | the part after the last `/`, holding no `/` |
| UploadSecurity.LastDot | Backend/middlewares/uploadSecurityMiddleware.js:67 | the position of the last `.`; none exactly when there is no `.` |
| UploadSecurity.Extname | Backend/middlewares/uploadSecurityMiddleware.js:67 | the extension is empty or a `.` followed by characters that are neither `.` nor `/` |
| UploadSecurity.FileFilter | Backend/middlewares/uploadSecurityMiddleware.js:65-114 | a file is accepted exactly when its extension is not dangerous, its MIME type is allowed and its name has no suspicious character; each refusal carries the message of the first failing check |
| UploadSecurity.FilterMonotone | Backend/middlewares/uploadSecurityMiddleware.js:65-114 | a wider allowlist accepts every file a narrower one does |
| UploadSecurity.ExtnameOfSuffix | Backend/middlewares/uploadSecurityMiddleware.js:67 | a name ending in `.` and further characters has that suffix as its extension, unless the `.` starts the name |
| UploadSecurity.DangerousShape | Backend/middlewares/uploadSecurityMiddleware.js:40-60 | every blocked extension is a `.` and at least two characters without `.` |
| UploadSecurity.AcceptedNotDangerous | Backend/middlewares/uploadSecurityMiddleware.js:67-82 | an accepted name ends in a blocked extension, in any letter case, only when it is that extension alone, a hidden file like `.sh` |
| UploadSecurity.ConfigsAgree | Backend/middlewares/uploadSecurityMiddleware.js:119-190 | the media upload accepts whatever the image, video and audio uploads do, and the avatar upload filters as the image upload with smaller limits |
| UploadSecurity.Hex | Backend/middlewares/uploadSecurityMiddleware.js:303 | two hex digits per byte |
| UploadSecurity.HexAppend | Backend/middlewares/uploadSecurityMiddleware.js:303 | the hex text of a concatenation is the concatenation of the hex texts |
| UploadSecurity.HexInjective | Backend/middlewares/uploadSecurityMiddleware.js:303 | different byte strings have different hex texts |
| UploadSecurity.SignaturesAsBytes | Backend/middlewares/uploadSecurityMiddleware.js:306-322 | each hex signature is the hex text of its byte signature |
| UploadSecurity.SignatureIffPrefix | Backend/middlewares/uploadSecurityMiddleware.js:303-331 | a buffer passes the signature test exactly when it begins with one of the known byte signatures |
| UploadSecurity.ValidateFileBuffer | Backend/middlewares/uploadSecurityMiddleware.js:292-350 | no file at all passes; the request passes exactly when no file is an image with an unknown signature, and is otherwise refused with 400 |
| UploadSecurity.MaxUploadsPerDay | Backend/middlewares/uploadSecurityMiddleware.js:208 | a parsed non-zero number is the maximum, and 100 otherwise |
| UploadSecurity.CheckUploadQuota | Backend/middlewares/uploadSecurityMiddleware.js:195-230 | the user's counter grows by one, the first upload starts a 24-hour window, a count beyond the maximum is refused with 429, and a failing cache lets the upload through unchanged |
| UploadSecurity.HandleUploadError | Backend/middlewares/uploadSecurityMiddleware.js:235-286 | no error passes on; multer's `LIMIT_FILE_SIZE` gives 413 `File too large`, `LIMIT_FILE_COUNT` 400 `Too many files`, `LIMIT_UNEXPECTED_FILE` 400 `Unexpected file field`, any other multer code 400 `Upload error` with the error's message; any other error 400 with its message or `Upload failed` |
| StoryController.ByAuthorThenTimeTotal | Backend/controllers/storyController.js:43 | ordering by author and then creation time is a total preorder |
| StoryController.VisibleStories | Backend/controllers/storyController.js:12-44 | exactly the unexpired stories of existing authors that are public, the user's own, a friend's friends-only story, or a custom story naming the user, each as often as in the table, ordered by author and time |
| StoryController.SortedStories | Backend/controllers/storyController.js:43 | sorting keeps exactly the shown stories, in feed order |
| StoryController.Project | Backend/controllers/storyController.js:15-26 | one row per story, as the query as written selects |
| StoryController.ProjectIntended | Backend/controllers/storyController.js:15-26 | one row per story, with the style columns the response reads (also lines 61-77) |
| StoryController.Items | Backend/controllers/storyController.js:61-77 | one response item per row |
| StoryController.Groups | Backend/controllers/storyController.js:47-80 | one entry per author of the rows |
| StoryController.AuthorsMember | Backend/controllers/storyController.js:49 | a user gets an entry exactly when some row has that author |
| StoryController.AuthorsDistinct | Backend/controllers/storyController.js:49-59 | no author gets two entries |
| StoryController.GroupsSnoc | Backend/controllers/storyController.js:48-78 | one more row adds a new last entry for a new author, or appends its story to the author's entry, changing nothing else |
| StoryController.GroupRows | Backend/controllers/storyController.js:47-80 | the loop builds exactly the grouping `Groups` describes |
| StoryController.GroupsIds | Backend/controllers/storyController.js:49-61 | each entry is headed by its author and holds at least one story |
| StoryController.GroupsDistinct | Backend/controllers/storyController.js:49-59 | the entries have distinct authors |
| StoryController.GroupsStories | Backend/controllers/storyController.js:61-77 | each entry holds, in row order, the stories of exactly that author's rows |
| StoryController.GroupsAuthorFromRow | Backend/controllers/storyController.js:50-58 | each entry's user is taken from one of that author's rows |
| StoryController.GroupsCover | Backend/controllers/storyController.js:48-78 | every row's author has an entry |
| StoryController.GroupsOrdered | Backend/controllers/storyController.js:43 | entries come in increasing author id, as `Object.values` lists integer keys, and each entry's stories run from oldest to newest (also line 80) |
| StoryController.GroupItemsFromRows | Backend/controllers/storyController.js:61-77 | each story of an entry comes from one of that author's rows |
| StoryController.GetStoriesDropsStyle | Backend/controllers/storyController.js:15-26 | as written, every story of the response has its music, text colour, font size, text position, frame flag, sticker, sticker position and privacy undefined (also lines 65-74) |
| StoryController.GetStoriesIntendedKeepsStyle | Backend/controllers/storyController.js:61-77 | with the style columns selected, every story of an entry is a full copy of a story by that author |
| StoryController.TextColorLost | Backend/controllers/storyController.js:15-26 | a story's text colour, never null in the table, is lost in the response as written and kept with the columns selected (also line 68) |
| StoryController.RecordView | Backend/controllers/storyController.js:95-112 | a view is inserted, stamped now, only when the pair has none |
| StoryController.RecordViewOnce | Backend/controllers/storyController.js:95-112 | the pair ends with exactly one view, and every other pair keeps its count |
| StoryController.RecordViewIdempotent | Backend/controllers/storyController.js:95-112 | seeing a story again changes nothing |
| StoryController.ValidateStory | Backend/controllers/storyController.js:147-167 | a request passes exactly when its type is allowed, a media story has a truthy URL and a text story a caption; each failure has its own message |
| StoryController.NewStory | Backend/controllers/storyController.js:129-144 | the inserted story expires after the given hours, 24 by default, and takes the defaults text, public, white text, size 24 and frame shown (also lines 188-201) |
| StoryController.ViewerRows | Backend/controllers/storyController.js:207-215 | one allowed-viewer row per listed id |
| StoryController.AllowedAfterCreate | Backend/controllers/storyController.js:206-216 | for the intended code (`CreateStoryIntended`), after the list is inserted a user may see the new story exactly when the list names them or they were allowed before |
| StoryController.OnlyOwnerDeletes | Backend/controllers/storyController.js:240-257 | with unique ids, a delete that goes through removes exactly the requester's story |
| StoryController.StoryStore.constructor | Backend/controllers/storyController.js:4 | the tables start empty |
| StoryController.StoryStore.GetStories | Backend/controllers/storyController.js:5-85 | the visible stories grouped by author, with the style columns selected |
| StoryController.StoryStore.ViewStory | Backend/controllers/storyController.js:88-123 | the views change as `RecordView` says and nothing else changes |
| StoryController.StoryStore.CreateStory | Backend/controllers/storyController.js:126-230 | as written: an invalid request is refused with its message and changes nothing; a valid one stores the story, then fails (500) because the insert reports no row, and no allowed viewer is stored |
| StoryController.StoryStore.CreateStoryIntended | Backend/controllers/storyController.js:126-230 | with the insert reporting its row: an invalid request changes nothing; a valid one stores and returns the story and, for a custom privacy with a list, appends exactly one allowed-viewer row per listed id |
| StoryController.StoryStore.DeleteStory | Backend/controllers/storyController.js:233-264 | refused with 403 unless the story is the requester's; otherwise every row with the id is deleted |
| AdminController.CeilDiv | Backend/controllers/adminController.js:73 | the fewest pages of `limit` rows that hold `total` rows |
| AdminController.ListingLength | Backend/controllers/adminController.js:56-66 | the list is as long as the count of matching rows |
| AdminController.AdminPage | Backend/controllers/adminController.js:35-79 | a negative offset or non-positive count is refused by the database; otherwise the page is the window at `(page - 1) * limit` of the ordered list, with its total and `ceil(total / limit)` pages (page 1 and 20 rows by default) |
| AdminController.PageOfPosition | Backend/controllers/adminController.js:35-73 | the pages partition the list: the row at `q * limit + m` is item `m` of page `q + 1`, and that page is within the page count |
| AdminController.GetAllUsers | Backend/controllers/adminController.js:33-81 | the total counts the matching users, and the page holds matching users newest first |
| AdminController.FindUser | Backend/controllers/adminController.js:93-103 | a user with the id, or none when no user has it |
| AdminController.PostRows | Backend/controllers/adminController.js:118-128 | each post is listed with its like and comment counts |
| AdminController.GetAllPosts | Backend/controllers/adminController.js:113-164 | the total counts the matching posts, and the page holds matching posts newest first with their counts |
| AdminController.FindPost | Backend/controllers/adminController.js:172-174 | a post with the id |
| AdminController.CommentRows | Backend/controllers/adminController.js:202-212 | each comment is listed with its like count |
| AdminController.GetAllComments | Backend/controllers/adminController.js:197-249 | the total counts the matching comments, and the page holds matching comments newest first |
| AdminController.ListingFacts | Backend/controllers/adminController.js:48 | a list holds only matching rows of its table, ordered newest first (also lines 132, 217) |
| AdminController.SetStatus | Backend/controllers/adminController.js:93-103 | every row with the id gets the status and reason, and a suspension time exactly when suspended; other rows stay |
| AdminController.SetStatusConsistent | Backend/controllers/adminController.js:89-103 | the update keeps every user's suspension time consistent with its status |
| AdminController.AdminStore.constructor | Backend/controllers/adminController.js:5 | the tables start empty |
| AdminController.AdminStore.UpdateUserStatus | Backend/controllers/adminController.js:84-110 | a status other than `active` or `suspended` is refused with 400 and changes nothing; otherwise the update runs, even when no user has the id |
| AdminController.AdminStore.DeletePostByAdmin | Backend/controllers/adminController.js:167-194 | a missing post is 404 and changes nothing; otherwise its likes, shares, saves and comments go, then the post |
| AdminController.AdminStore.DeleteCommentByAdmin | Backend/controllers/adminController.js:252-277 | a missing comment is 404 and changes nothing; otherwise its likes, its direct replies and then the comment go |
| AdminController.AdminDeletePostSpec | Backend/controllers/adminController.js:181-187 | after deleting a post nothing points at it, and every row that does not is kept |
| AdminController.AdminDeleteCommentSpec | Backend/controllers/adminController.js:266-270 | a comment survives exactly when it is neither the comment nor a direct reply to it |
| AdminController.AdminDeleteKeepsGrandchild | Backend/controllers/adminController.js:267-270 | a reply to a reply stays, pointing at a comment that no longer exists |
| PostController.CreateStatus | Backend/controllers/postController.js:65-67 | the trimmed status when it is `public`, `friends` or `private`, otherwise `public` |
| PostController.UpdateStatus | Backend/controllers/postController.js:88-92 | the trimmed, lower-cased status when it is one of the three, otherwise `public` |
| PostController.AllowedAreClean | Backend/controllers/postController.js:65 | the three statuses are lower case with no surrounding white space (also line 88) |
| PostController.SanitiseIdempotent | Backend/controllers/postController.js:65-67 | a sanitised status comes back unchanged from either sanitiser (also lines 88-92) |
| PostController.UpdateExtendsCreate | Backend/controllers/postController.js:65-67 | whatever `createPost` keeps, `updatePost` keeps the same way (also lines 88-92) |
| PostController.CaseDiffers | Backend/controllers/postController.js:66 | a status differing only in case is kept by `updatePost` and replaced by `public` in `createPost` (also lines 89-91) |
| PostController.GetPostError | Backend/controllers/postController.js:29-37 | a thrown missing-post message is 404 with that message, and any other error 500 |
| PostController.DeletePostError | Backend/controllers/postController.js:140-148 | an error mentioning `không có quyền` is 403 with its message, and any other 500 |
| PostController.Apply | Backend/controllers/postController.js:108-122 | as written: the post with the id gets the content, media, the status in its `visibility` column and the update time, and keeps its `status`; other posts stay |
| PostController.UpdateKeepsStatus | Backend/controllers/postController.js:113-118 | as written, an edit leaves every post's `status` as it was: the column `createPost` writes (`Backend/services/postService.js:77-81`) and `getPostById` selects (`Backend/services/postService.js:46`); the edit writes `visibility`, which the feed and profile queries select and filter on (`Backend/models/postModel.js:22`, `:37-40`, `:77`, `:93-96`), so the code uses both columns |
| PostController.EditToPrivateStaysPublic | Backend/controllers/postController.js:113-118 | a public post edited to `private` keeps status `public` and has `visibility` `private` |
| PostController.ApplyIntended | Backend/controllers/postController.js:108-122 | as intended: the post with the id gets the content, media, sanitised status in `status` and update time; other posts stay |
| PostController.IntendedUpdateSetsStatus | Backend/controllers/postController.js:88-92 | with the intended update, the edited post's `status` is the sanitised status asked for, one of the three, and stable under `createPost`'s sanitiser |
| PostController.PostStore.constructor | Backend/controllers/postController.js:54 | the posts table starts empty |
| PostController.PostStore.CreatePost | Backend/controllers/postController.js:54-78 | refused with 401 without a user id; otherwise the post is inserted with its media, or none when empty, the sanitised `status` and the default `visibility` |
| PostController.PostStore.UpdatePost | Backend/controllers/postController.js:81-125 | refused with 403 exactly when the requester does not own the post; otherwise the as-written update is applied and the updated row returned: new content, media, `visibility` and time, old `status` |
| CallHistoryController.DurationOrZero | Backend/controllers/callHistoryController.js:39 | a truthy duration is kept and any other becomes 0 |
| CallHistoryController.CreateCallHistory | Backend/controllers/callHistoryController.js:7-54 | a record is created exactly when the receiver is given, the call type is `video` or `voice` and the status one of the four; otherwise the first failing check's 400 |
| CallHistoryController.CreatedRecordIsWellFormed | Backend/controllers/callHistoryController.js:13-40 | every stored record has an allowed call type and status, a receiver, and a truthy duration or 0 |
| CallHistoryController.EmptyStatusIsMissing | Backend/controllers/callHistoryController.js:13 | an empty status counts as missing |
| CallHistoryController.LimitOr | Backend/controllers/callHistoryController.js:64 | a non-zero number is the limit and otherwise the default (also line 99) |
| CallHistoryController.LimitNonZero | Backend/controllers/callHistoryController.js:64 | the handlers never ask for zero rows, and default to 50 and 100 (also line 99) |
| CallHistoryController.GetCallHistoryBetweenUsers | Backend/controllers/callHistoryController.js:60-90 | a falsy other user id is refused with `Invalid userId`; otherwise the service is asked with the limit read |
| CallHistoryController.BetweenUsersQueryValid | Backend/controllers/callHistoryController.js:63-77 | a query reaching the service has a non-zero user id and limit |
| PostCard.TrimAll | Frontend/src/components/PostCard.jsx:54-55 | each entry trimmed, in place |
| PostCard.ParseImages | Frontend/src/components/PostCard.jsx:53-57 | anything but an array or a string gives no image; every result is trimmed and non-empty; every non-blank array entry appears trimmed |
| PostCard.ParseJoined | Frontend/src/components/PostCard.jsx:55 | a `;`-join of clean entries without `;` parses back to the same entries (also line 864) |
| PostCard.ToAbsoluteUrl | Frontend/src/components/PostCard.jsx:59-66 | blank stays blank, an `http(s)` URL is kept, a protocol-relative one gets `http:`, a root path gets the server origin, and anything else the origin and a `/` |
| PostCard.ToAbsoluteUrlIdempotent | Frontend/src/components/PostCard.jsx:59-66 | normalising twice is normalising once |
| PostCard.FileLocations | Frontend/src/components/PostCard.jsx:80-84 | only truthy locations are kept |
| PostCard.ExtractUploadUrls | Frontend/src/components/PostCard.jsx:68-86 | the first applicable shape of the upload answer decides the URLs, from a falsy answer giving none to the locations of `files` |
| PostCard.ExtractFromFiles | Frontend/src/components/PostCard.jsx:80-84 | the `files` branch yields only truthy locations |
| PostCard.MoveEditImage | Frontend/src/components/PostCard.jsx:760-769 | the images are permuted, a target outside the list or equal to the source leaves them alone, and the moved image lands at the target |
| PostCard.MoveEditImageShape | Frontend/src/components/PostCard.jsx:765-767 | the images between the two positions shift by one and the others stay |
| PostCard.MoveEditImageBack | Frontend/src/components/PostCard.jsx:760-769 | moving an image back undoes the move |
| PostCard.RemoveEditImage | Frontend/src/components/PostCard.jsx:771-773 | every image except the one at the index, in order; an index outside the list changes nothing |
| PostCard.AddImageByUrl | Frontend/src/components/PostCard.jsx:775-785 | a blank entry changes nothing; otherwise the normalised URL is listed afterwards, appended only when not yet listed |
| PostCard.AddImageKeepsDistinct | Frontend/src/components/PostCard.jsx:780-783 | adding by URL never introduces a duplicate |
| PostCard.LikeCount | Frontend/src/components/PostCard.jsx:658-664 | the counter goes up by one on `liked` and otherwise down by one, never below zero |
| PostCard.LikeThenUnlike | Frontend/src/components/PostCard.jsx:658-664 | a like and an unlike restore a non-negative count, which stays non-negative |
| PostCard.SaveEdit | Frontend/src/components/PostCard.jsx:848-880 | refused when both text and images are blank; otherwise the trimmed text, and the images `;`-joined, or none when there are none |
| PostCard.SavedMediaParsesBack | Frontend/src/components/PostCard.jsx:53-57 | the saved media, read back by `parseImages`, is the list the edit kept, when no URL contains `;` (also lines 848-870) |
| StoryViewer.Rank | Frontend/src/components/StoryViewer.jsx:56-67 | rank 0 is the current user's group, 1 another group with an unseen story, 2 a fully seen group |
| StoryViewer.SortedStoriesOrder | Frontend/src/components/StoryViewer.jsx:56-67 | the sorted list holds the same groups, the current user's group first, and groups with an unseen story before fully seen ones |
| StoryViewer.FindGroup | Frontend/src/components/StoryViewer.jsx:70-72 | the first group of the user, or -1 when there is none |
| StoryViewer.NextStory | Frontend/src/components/StoryViewer.jsx:172-193 | the next story of the group, else the first story of the next group, else the viewer closes |
| StoryViewer.PrevStory | Frontend/src/components/StoryViewer.jsx:196-211 | the previous story of the group, else the last story of the previous group, else nothing changes |
| StoryViewer.FindUnique | Frontend/src/components/StoryViewer.jsx:70-72 | with one group per author, the lookup finds each group at its own position |
| StoryViewer.PrevAfterNext | Frontend/src/components/StoryViewer.jsx:172-211 | going back after going forward returns to the same story |
| StoryViewer.NextAfterPrev | Frontend/src/components/StoryViewer.jsx:172-211 | going forward after going back returns to the same story |
| StoryViewer.NextStaysOnGroup | Frontend/src/components/StoryViewer.jsx:172-193 | when no group is empty, stepping forward lands on an existing story |
| StoryViewer.ToUrl | Frontend/src/components/StoryViewer.jsx:44-49 | a blank, `null` or `undefined` path is the default avatar, an `http` URL is kept, and anything else gets the server origin |
| StoryViewer.ToUrlKeeps | Frontend/src/components/StoryViewer.jsx:44-49 | a given path is kept exactly when it starts with `http` |
| ImageHelper.GetFullImageUrl | Frontend/src/utils/imageHelper.js:6-28 | an empty URL is the default image, a full URL or root path is kept, anything else gets `https://`; the result is always full |
| ImageHelper.GetFullImageUrlIdempotent | Frontend/src/utils/imageHelper.js:6-28 | normalising twice is normalising once |
| ImageHelper.GetFullImageUrlFixed | Frontend/src/utils/imageHelper.js:6-28 | the normaliser keeps a URL exactly when it is full |
| Chatbox.LastN | Frontend/src/page/Chatbox.jsx:329 | the last `n` elements, or all of them when there are fewer (also line 704) |
| Chatbox.SuffixOfSuffix | Frontend/src/page/Chatbox.jsx:329 | what the screen keeps of a suffix is still a suffix of the chat |
| Chatbox.ChatWindow.constructor | Frontend/src/page/Chatbox.jsx:681 | a window starts with no message |
| Chatbox.ChatWindow.Load | Frontend/src/page/Chatbox.jsx:681-704 | the fetched messages in time order, the same ones, with the newest page on screen |
| Chatbox.ChatWindow.Receive | Frontend/src/page/Chatbox.jsx:325-329 | a message of another chat is ignored; otherwise it is appended, and the screen keeps the newest fifteen of what it showed plus the new one |
| Chatbox.ChatWindow.LoadMore | Frontend/src/page/Chatbox.jsx:731-738 | nothing changes when every message is shown; otherwise the newest `min(total, shown + 15)` messages are shown, more than before |
| Chatbox.LoadMoreReachesAll | Frontend/src/page/Chatbox.jsx:731-738 | each step shows more, a full page more or everything |
| Chatbox.ParseMessage | Frontend/src/page/Chatbox.jsx:1052-1076 | only a text message whose content parses to an object with a truthy `reply_to` is a reply; anything else is plain, with its own content |
| Chatbox.ParseStoredReply | Frontend/src/page/Chatbox.jsx:1052-1076 | the page decodes what the chat model stores for a reply: the replied-to id, type and message text come back |
| Chatbox.ParseStoredPlain | Frontend/src/page/Chatbox.jsx:1052-1076 | a stored plain message is shown as sent, when its text is not itself a reply object |
| Chatbox.ShouldShowTime | Frontend/src/page/Chatbox.jsx:1079-1083 | the first message, and any message more than five minutes after the one before, gets a time separator |
| Chatbox.SameMomentNoSeparator | Frontend/src/page/Chatbox.jsx:1079-1083 | a message within five minutes of the one before gets none |
| Chatbox.ChatOrderTotal | Frontend/src/page/Chatbox.jsx:663-667 | the chat-list comparator, chats with unread messages first and then newest first, is a total preorder |
| Chatbox.DistinctIdsPermutation | Frontend/src/page/Chatbox.jsx:663 | sorting keeps the chat ids distinct |
| Chatbox.UniqueChats | Frontend/src/page/Chatbox.jsx:643-672 | one entry per chat id, taken from the rows, the latest of that chat, ordered by the chat-list comparator |
| Chatbox.CallDurationTextShape | Frontend/src/page/Chatbox.jsx:1280-1283 | the text is the whole minutes, a colon and two digits of seconds, and reads back as the duration |
| MessageOptimization.SliceFromEnd | Frontend/src/hooks/useMessageOptimization.js:20 | the last `n` elements, or all of them, and the whole list for `slice(-0)` |
| MessageOptimization.MessageWindow.constructor | Frontend/src/hooks/useMessageOptimization.js:10-12 | nothing is shown, nothing more and no load running |
| MessageOptimization.MessageWindow.Initialize | Frontend/src/hooks/useMessageOptimization.js:18-24 | with messages present, the newest batch is shown and `hasMore` says whether there are more; with none nothing changes |
| MessageOptimization.MessageWindow.StartLoadMore | Frontend/src/hooks/useMessageOptimization.js:40-43 | a load starts exactly when none runs and more remain |
| MessageOptimization.MessageWindow.FinishLoadMore | Frontend/src/hooks/useMessageOptimization.js:50-68 | with everything shown `hasMore` clears; otherwise the next older batch of up to thirty goes in front and `hasMore` says whether any remain; loading ends either way |
| MessageOptimization.NoMoreMeansAll | Frontend/src/hooks/useMessageOptimization.js:54-67 | for a window that is a suffix of the messages with `hasMore` telling whether older ones remain, `hasMore` false means every message is on screen |
| ChatMessages.NextPageParam | Frontend/src/hooks/useChatMessages.js:35-44 | no cursor after a missing or short page; otherwise the id of the page's oldest message |
| ChatMessages.FlattenOlderPage | Frontend/src/hooks/useChatMessages.js:67-69 | an older page's messages go in front of those already shown |
| ChatMessages.FlattenSize | Frontend/src/hooks/useChatMessages.js:67-69 | the list holds every message of every page |
| ChatMessages.AddMessage | Frontend/src/hooks/useChatMessages.js:72-86 | with no cache a single page holding the message; otherwise the message is appended to the newest page; a cache without pages throws |
| ChatMessages.AddMessageAppends | Frontend/src/hooks/useChatMessages.js:67-86 | afterwards the list shows exactly one more message, the new one, last |
| RecentChats.FindChat | Frontend/src/components/RecentChats.jsx:64 | the first entry of the chat, or -1 when it is not listed |
| RecentChats.Updated | Frontend/src/components/RecentChats.jsx:66-82 | the last message is the text, or `Media`; the time is the message's, or now; the unread count grows unless I sent it |
| RecentChats.Sidebar.constructor | Frontend/src/components/RecentChats.jsx:14-17 | no chats, nobody online and no room joined |
| RecentChats.Sidebar.StatusChanged | Frontend/src/components/RecentChats.jsx:49-56 | `online` adds the user, any other status removes them, and nothing else changes |
| RecentChats.Sidebar.ReceiveMessage | Frontend/src/components/RecentChats.jsx:59-87 | a message without a chat id, or for a chat not listed, changes nothing; otherwise the chat's entry is updated and moved to the front |
| RecentChats.Sidebar.Load | Frontend/src/components/RecentChats.jsx:101-122 | the fetched chats, the same ones, in the chat-list order |
| RecentChats.Sidebar.JoinRooms | Frontend/src/components/RecentChats.jsx:126-138 | without a socket nothing happens; otherwise each listed non-zero chat id not joined before is joined once, and exactly those are emitted |
| RecentChats.MoveToFrontKeepsChats | Frontend/src/components/RecentChats.jsx:84-85 | moving a chat to the front keeps the same chats, only the moved entry changing |
| MessageSearch.Reverse | Frontend/src/components/MessageSearch.jsx:28 | the result holds the elements of the list in the opposite order |
| MessageSearch.Search | Frontend/src/components/MessageSearch.jsx:10-32 | a blank query finds nothing; otherwise a message is a result exactly when its text or its replied-to text contains the trimmed query, case-insensitively |
| MessageSearch.SearchLatestFirst | Frontend/src/components/MessageSearch.jsx:18-28 | the results are the matching messages latest first: reversed, they are the matches in conversation order |
| MessageSearch.SearchPanel.constructor | Frontend/src/components/MessageSearch.jsx:5-7 | no results and the cursor at the first |
| MessageSearch.SearchPanel.SetQuery | Frontend/src/components/MessageSearch.jsx:10-32 | a new query or message list replaces the results and resets the cursor to the first |
| MessageSearch.SearchPanel.Previous | Frontend/src/components/MessageSearch.jsx:34-39 | moves one result back and scrolls to it, unless the cursor is at the first; the cursor stays within the results |
| MessageSearch.SearchPanel.Next | Frontend/src/components/MessageSearch.jsx:41-46 | moves one result on and scrolls to it, unless the cursor is at the last; the cursor stays within the results |
| CallHistoryItem.Description | Frontend/src/components/CallHistoryItem.jsx:32-38 | missed calls read missed or not answered by direction; answered calls read the call type and the direction |
| CallHistoryItem.DescriptionDistinguishes | Frontend/src/components/CallHistoryItem.jsx:32-38 | two calls with the same description agree on outcome and direction, and answered ones also on video or voice |
| CallHistoryItem.JsRem | Frontend/src/components/CallHistoryItem.jsx:44 | JavaScript's remainder: Euclidean for a non-negative dividend, non-positive for a negative one |
| CallHistoryItem.FloorDiv | Frontend/src/components/CallHistoryItem.jsx:43 | the largest quotient whose multiple does not exceed the dividend |
| CallHistoryItem.FormatDuration | Frontend/src/components/CallHistoryItem.jsx:41-46 | the missed text appears exactly for missed calls and calls without a duration |
| CallHistoryItem.DurationShown | Frontend/src/components/CallHistoryItem.jsx:41-46 | a positive duration reads as whole minutes and seconds below 60 that add back up to it |
| CallHistoryItem.NegativeDurationShown | Frontend/src/components/CallHistoryItem.jsx:43-45 | a duration of -1 reads `-1 phút -1 giây`: floor division and truncating remainder disagree for negatives |
| CallHistoryItem.MissedOfStoredStatus | Frontend/src/components/CallHistoryItem.jsx:16 | of the statuses the controller stores, exactly missed and rejected read as missed, and callee-busy never occurs |
| MigrateToPostgres.RootRelative | Backend/scripts/migrateToPostgres.js:40-42 | the result is empty, absolute or root-relative; it differs from the input exactly when a slash had to be prefixed |
| MigrateToPostgres.CleanUrl | Backend/scripts/migrateToPostgres.js:35-44 | a missing or empty URL gives null; any other gives an empty, absolute or root-relative URL |
| MigrateToPostgres.CleanUrlPlain | Backend/scripts/migrateToPostgres.js:38-43 | a URL naming neither local server only gets the leading slash |
| MigrateToPostgres.CleanUrlLocalHost | Backend/scripts/migrateToPostgres.js:38-43 | a URL stored against either local server becomes its root-relative path |
| MigrateToPostgres.CleanUrlPlainStable | Backend/scripts/migrateToPostgres.js:35-44 | cleaning a cleaned plain URL again changes nothing |
| MigrateToPostgres.CommentMigration.constructor | Backend/scripts/migrateToPostgres.js:209 | the target comments table as it stands, and no skip logged |
| MigrateToPostgres.CommentMigration.MigrateComments | Backend/scripts/migrateToPostgres.js:220-249 | the table and the skip log after inserting the rows in id order, existing ids left alone and foreign-key failures logged and passed over |
| MigrateToPostgres.CopyStep | Backend/scripts/migrateToPostgres.js:222-248 | one more row changes the table and the skip log by that row's outcome alone |
| MigrateToPostgres.CopyAllGrows | Backend/scripts/migrateToPostgres.js:229 | a copy never removes or overwrites a row and adds only source rows |
| MigrateToPostgres.CopyAllComplete | Backend/scripts/migrateToPostgres.js:222-248 | rows with distinct new ids, existing posts and users, and parents first are all copied and none is skipped |
| MigrateToPostgres.ParentsFirstPrefix | Backend/scripts/migrateToPostgres.js:222 | a prefix of a parents-first order is parents-first |
| MigrateToPostgres.SortSameRows | Backend/scripts/migrateToPostgres.js:220 | sorting by id keeps the same rows |
| MigrateToPostgres.SmallerIdEarlier | Backend/scripts/migrateToPostgres.js:220 | after sorting by id, a smaller id comes earlier |
| MigrateToPostgres.SortedParentsFirst | Backend/scripts/migrateToPostgres.js:219-220 | when every parent has a smaller id than its reply, the id order puts parents first |
| MigrateToPostgres.SortedDistinct | Backend/scripts/migrateToPostgres.js:220 | sorting keeps ids distinct |
| MigrateToPostgres.MigrationCopiesEveryComment | Backend/scripts/migrateToPostgres.js:219-249 | under the script's assumption that parents have smaller ids, every comment reaches an empty target and none is skipped |
| FixAllModels.SignatureAt | Backend/fix_all_models.py:18-19 | a match of `async (\w+)` and the tail fits within the text |
| FixAllModels.ModelsDir.constructor | Backend/fix_all_models.py:4-7 | the models directory as given, and nothing printed |
| FixAllModels.ModelsDir.Run | Backend/fix_all_models.py:6-30 | each existing model file is replaced by its fix and reported fixed, each missing one reported skipped, then `Done!` |
| FixAllModels.ProcessAllKeys | Backend/fix_all_models.py:6-26 | the run creates and deletes no file |
| FixAllModels.ProcessAllEffect | Backend/fix_all_models.py:6-26 | with distinct paths, each named file is fixed once and every other file is left alone |
| FixAllModels.ModelPaths | Backend/fix_all_models.py:4-7 | the three model paths are distinct |
| FixAllModels.RunEffect | Backend/fix_all_models.py:4-26 | a run fixes exactly the three model files that exist and leaves every other file as it was |
| FixAllModels.MapChunks | Backend/fix_all_models.py:17-22 | each piece mapped in place |
| FixAllModels.SignatureAtHead | Backend/fix_all_models.py:18-19 | a head whose argument list differs from the tail does not match |
| FixAllModels.SigHeadAt | Backend/fix_all_models.py:18-19 | at a signature head the pattern captures exactly the function name |
| FixAllModels.SigRuleChunk | Backend/fix_all_models.py:18-19 | a signature rule replaces a head with its own tail, keeping the name, and copies every other piece |
| FixAllModels.AwaitRuleChunk | Backend/fix_all_models.py:22 | the await rule replaces a pool-await statement with the connection check and copies every other piece |
| FixAllModels.RewriteChunks | Backend/fix_all_models.py:17-22 | a rewrite that acts piece by piece acts on the whole file piece by piece |
| FixAllModels.ArgsByChunks | Backend/fix_all_models.py:18 | the `(poolPromise,` rule acts piece by piece on a file |
| FixAllModels.OnlyByChunks | Backend/fix_all_models.py:19 | the `(poolPromise)` rule acts piece by piece on a file |
| FixAllModels.AwaitByChunks | Backend/fix_all_models.py:22 | the await rule acts piece by piece on a file |
| FixAllModels.FixByChunks | Backend/fix_all_models.py:17-22 | the whole fix drops `Promise` from signature heads, keeping their names, turns pool-await statements into the connection check and keeps everything else |
| FixAllModels.PieceMapsCompose | Backend/fix_all_models.py:18-22 | the three rules in turn are the single fix map |
| FixAllModels.ArgsRuleKeepsName | Backend/fix_all_models.py:18 | the captured function name is written back and only `Promise` is dropped |
| FixAllModels.OnlyRuleKeepsName | Backend/fix_all_models.py:19 | the captured function name is written back and only `Promise` is dropped |
| FixAllModelsRerun.FixIdempotent | Backend/fix_all_models.py:17-22 | fixing a fixed file changes nothing |
| FixAllModelsRerun.FixedIsStable | Backend/fix_all_models.py:17-22 | a file made of fixed pieces is left as it is |
| FixAllModelsRerun.FixMapIdempotent | Backend/fix_all_models.py:17-22 | the fix map is idempotent on pieces |
| FixAllModelsRerun.RunTwiceChangesNothing | Backend/fix_all_models.py:6-26 | a second run of the script leaves the model files as the first run left them |
| StoryModal.Toggled | Frontend/src/components/StoryModal.jsx:121-123 | toggling flips the id's membership and nothing else: a selected id is removed, any other is appended |
| StoryModal.ToggledDistinct | Frontend/src/components/StoryModal.jsx:121-123 | toggling never selects a friend twice |
| StoryModal.FilterDropsOne | Frontend/src/components/StoryModal.jsx:122 | filtering out a selected id shortens the selection |
| StoryModal.ToggleTwice | Frontend/src/components/StoryModal.jsx:121-123 | selecting and unselecting a friend gives back the same selection |
| StoryModal.StoryDraft.constructor | Frontend/src/components/StoryModal.jsx:7-30 | the dialog opens on the choice screen with the documented default text style, a public audience and nobody selected |
| StoryModal.StoryDraft.ChooseText | Frontend/src/components/StoryModal.jsx:225 | the text editor opens and the draft is kept |
| StoryModal.StoryDraft.Back | Frontend/src/components/StoryModal.jsx:404 | back to the choice screen, the draft kept |
| StoryModal.StoryDraft.ChoosePrivacy | Frontend/src/components/StoryModal.jsx:340-383 | the chosen audience is kept; the friend list shows exactly when the audience is custom |
| StoryModal.StoryDraft.ToggleFriendSelection | Frontend/src/components/StoryModal.jsx:117-124 | an id that is not a positive integer is ignored; any other is toggled in the selection |
| StoryModal.StoryDraft.HandleMediaUpload | Frontend/src/components/StoryModal.jsx:65-82 | exactly a video or image file is accepted, which opens the media screen with it and releases the old preview; anything else changes nothing |
| StoryModal.StoryDraft.HandleMusicUpload | Frontend/src/components/StoryModal.jsx:85-104 | exactly an audio file is kept, with its URL; anything else changes nothing |
| StoryModal.StoryDraft.AllowedViewers | Frontend/src/components/StoryModal.jsx:147 | viewers are sent exactly for a custom audience, and they are the selection |
| StoryModal.StoryDraft.CanSubmit | Frontend/src/components/StoryModal.jsx:411 | the post button needs some text on the text screen and only that nothing is being posted on the media screen |
| StoryModal.StoryDraft.Submit | Frontend/src/components/StoryModal.jsx:126-204 | the uploads made and the story request sent: a text story needs no upload, a media story is sent only after its uploads succeed, it expires a day later, and the dialog closes only when the request succeeds |
| StoryModal.MediaIsNotMusic | Frontend/src/components/StoryModal.jsx:69-70 | an accepted media file is never also an audio file |
| NotificationsPage.Filtered | Frontend/src/page/NotificationsPage.jsx:233-238 | all shows everything; the unread and read filters keep exactly the notifications of that status |
| NotificationsPage.UnreadCount | Frontend/src/page/NotificationsPage.jsx:240 | the unread counter is the length of the unread list |
| NotificationsPage.ReadCount | Frontend/src/page/NotificationsPage.jsx:288 | the read counter is the total less the unread counter |
| NotificationsPage.ReadCountMatchesFilter | Frontend/src/page/NotificationsPage.jsx:233-240 | when every status is read or unread, the read counter is the length of the read list and the two lists split the notifications |
| NotificationsPage.MarkAllRead | Frontend/src/page/NotificationsPage.jsx:109-111 | every notification, in place, marked read |
| NotificationsPage.MarkAllReadLeavesNoneUnread | Frontend/src/page/NotificationsPage.jsx:109-111 | after marking all, nothing is unread and the read list is the whole list |
| NotificationsPage.MarkAsRead | Frontend/src/page/NotificationsPage.jsx:133-135 | the notifications with the id become read, every other one is unchanged, order kept |
| NotificationsPage.MarkAsReadUnread | Frontend/src/page/NotificationsPage.jsx:133-135 | marking one removes exactly the unread entries with its id from the unread list |
| NotificationsPage.MarkAsReadIdempotent | Frontend/src/page/NotificationsPage.jsx:133-135 | marking the same id twice is marking it once |
| NotificationsPage.Delete | Frontend/src/page/NotificationsPage.jsx:152 | exactly the notifications with other ids remain |
| NotificationsPage.DeleteAbsent | Frontend/src/page/NotificationsPage.jsx:152 | deleting an id that is not listed changes nothing |
| NotificationsPage.DeleteShortens | Frontend/src/page/NotificationsPage.jsx:152 | deleting a listed id shortens the list and leaves no entry with that id |
| NotificationsPage.ClickRoute | Frontend/src/page/NotificationsPage.jsx:170-194 | post notifications open their post when they name one, friend requests the pending tab, accepted requests the sender's profile, messages the conversation, anything else stays |
| NotificationsPage.HandleClick | Frontend/src/page/NotificationsPage.jsx:161-195 | an unread notification is marked read first, a read one is not, then the route is followed |
| NotificationsPage.ClickMarksRead | Frontend/src/page/NotificationsPage.jsx:165-167 | after a click on an unread notification it is read in the list |
| Json.RoundTrip | Backend/models/chatModel.js:158-167 | what the chat model encodes with `JSON.stringify` the chat page decodes with `JSON.parse` to the same value |

## Left out

- The database drivers, Socket.IO, HTTP routing, React rendering, toasts, `localStorage` and audio playback are left out. They are I/O; the model keeps the state they read and write as class fields and parameters.
- The clock, random numbers (OTP digits, tokens), bcrypt hashing and the regular-expression engine of the moderation rules are parameters. They are foreign code whose results the model takes as given.
- JavaScript's Unicode case folding and its `\s` and `\w` classes are modelled on ASCII letters, spaces and word characters. Non-ASCII text is compared as is.
- The admin search filters use SQL `LIKE`. They are modelled as plain substring tests. A `%` or `_` typed into the search box acts as a wildcard in SQL, and the model does not capture that.
- The `ipBasedLimiter` of `Backend/middlewares/advancedRateLimiting.js` is not modelled. It is the `express-rate-limit` package, configured with constants.
- The read-only listings that are a single SQL query with no rule of their own are not modelled. These are `getFriends`, `getPendingRequests`, `getSentRequests`, `getSuggestedFriends`, `getSystemStats`, `getMissedCallsCount`, `getPostLikes`, `getLikedPosts`, `getEmailQueueStatus`, `getUserChats`, `getMessagesByChat`, `getPosts` and `getPostsByUser`.
- Of `getCallHistoryForUser`, only the defaulting of its limit is modelled (`CallHistoryController.LimitOr`). The rest is one SQL query.
- The specific e-mail senders (`Backend/services/emailService.js:99-222`) are not modelled separately. Each one calls `sendTemplatedEmail` or `queueEmail` with fixed variables.
- The transaction and application lock around `getOrCreateDm` are not modelled. The model's operations run one at a time, so there is no concurrent creation to exclude.
- Hard deletion relies on the database's `ON DELETE CASCADE` rules, which are not modelled. `hardDeleteAccount` removes the user's row only.
- On PostgreSQL, `deleteComment` relies on the schema's cascade. The model uses the recursive reply-tree query of the SQL Server path; for a reply tree both remove the same rows.
- Ids that parse to `NaN` are modelled as a missing value (`None`). JavaScript's `NaN` comparisons are not modelled.
- The `filteredChats` search box of `RecentChats.jsx:140` is not modelled. It is a display filter with no state.
- Scroll-position effects, `handleImageError` fallbacks, `getNotificationIcon`, `toggleMusic`, the story dialog's friend fetch and the notification page's socket-driven reloads are left out. They are presentation and I/O.
- The `mark_messages_read` socket emit of the chat page is left out. The model covers the read state it changes (`ChatModel.MarkMessagesRead`).
- `UploadSecurity.ConfigsAgree` relates the media, image, video, audio and avatar upload configurations. The `documentUpload` configuration is not related to them.
- `PostCard.MoveEditImage`: requires the moved index to be listed. The page calls it only with an index of a shown image; an index outside the list would insert `undefined`, which the model does not represent.
- `CallHistoryItem.FormatDuration`: its own contract states only when the missed text appears. The minutes-and-seconds text is stated by `CallHistoryItem.DurationShown`, and the negative case by `CallHistoryItem.NegativeDurationShown`.
- `FixAllModelsRerun.RunTwiceChangesNothing`: a second run is proved to change nothing only for files made of well-formed pieces (`FixAllModels.WellFormed`). A well-formed file is a sequence of signature heads, pool-await statements, indentation and whole lines in which no rule matches. Other text is not covered.
- `MigrateToPostgres.CleanUrl`: its exact result is proved for two kinds of URL. These are URLs naming no local server (`CleanUrlPlain`) and one local host followed by a path (`CleanUrlLocalHost`). For any other URL, only the general shape of the result is stated.
- The rest of `Backend/scripts/migrateToPostgres.js` (users, posts, likes, friendships, saved posts) is not modelled. It is row copying with `ON CONFLICT` clauses and error logging. Only the comment copy and `cleanUrl` are modelled.

- `ChatSocket.NotificationText`: the 50-character cut counts Unicode scalar values. JavaScript's `substring(0, 50)` counts UTF-16 code units, so a text with characters outside the Basic Multilingual Plane (emoji) is cut shorter, possibly inside a surrogate pair; the model does not capture that.
- `StoryController.Project`: the story feed selects `s.content AS caption` (`Backend/controllers/storyController.js:18`) while `createStory` writes the `caption` column (line 190). The model keeps one caption per story for both; which of the two columns the schema holds is not part of this model.
- `FixAllModels.SignatureAt`: Python's `\w` on text matches any Unicode letter or digit. The model's word characters are ASCII letters, digits and `_`, so a function name with non-ASCII letters is not matched in the model.
- `EmailService.ReplaceAtPlaceholder`: stated for values without `` $` ``. `EmailService.ReplaceKey` models every `$` pattern, but with `` $` `` each replacement copies the whole text before its placeholder, so the rest of the template cannot be rendered on its own.
- `EmailService.ReplaceSkipsText`: stated for values without `` $` ``, for the same reason.
- `MigrateToPostgres.Outcome`: only the outcomes of `ON CONFLICT` and of error 23503 are modelled. The `Failed comment` branch for any other database error (`Backend/scripts/migrateToPostgres.js:246`) is not; the model's inserts raise no other error.
- `StoryController.StoryStore.CreateStory`: follows the SQL Server driver. Under the PostgreSQL adapter `DATEADD` is not rewritten, so the insert itself fails and no story is stored; that path is not modelled.

## Findings

| source | as written | input that shows it | evidently intended | confidence | as-written member | corrected member |
|---|---|---|---|---|---|---|
| Backend/services/emailService.js:66 | the subject is rendered with `renderTemplate`, which appends the HTML footer, so the footer is appended to the subject line too | a template with subject `Welcome` goes out with subject `Welcome` followed by the footer block | only the body receives the footer; the subject only has its placeholders replaced | not executed | EmailService.SubjectCarriesFooter | EmailService.IntendedSubjectVerbatim |
| Backend/controllers/postController.js:113-118 | `updatePost` writes the sanitised status into the `visibility` column, while `createPost` (`Backend/services/postService.js:77-81`) writes `status` and `getPostById` selects `status` (`Backend/services/postService.js:46`), so an edit never changes the status `getPostById` returns; the feed and profile queries (`Backend/models/postModel.js:22`, `:77`) select and filter on `visibility` instead, so the code uses both columns | the owner edits a post created as `public`, asking for `private`: its `status`, as `getPostById` returns it, stays `public` | the sanitised status is written to `status` | not executed | PostController.EditToPrivateStaysPublic | PostController.IntendedUpdateSetsStatus |
| Backend/controllers/storyController.js:188-203 | the story `INSERT` has no `OUTPUT` clause, so `result.recordset[0]` throws after the row is stored: every valid request is answered 500 and no allowed viewer of a custom story is stored | any valid request, such as a text story with caption `hi` | the insert reports its row, the story is returned and the custom viewers are stored | not executed | StoryController.StoryStore.CreateStory | StoryController.StoryStore.CreateStoryIntended |
| Backend/controllers/storyController.js:15-26 | the query selects no `music_url`, `text_color`, `font_size`, `text_position`, `show_frame`, `sticker`, `sticker_position` or `privacy`, but the response reads them from each row (lines 61-77), so they are undefined | any stored text story with text colour `#FFFFFF`: the response has no text colour | the query selects the style columns, so each story of the response carries its stored style | not executed | StoryController.GetStoriesDropsStyle | StoryController.GetStoriesIntendedKeepsStyle |
| Backend/services/contentModerationService.js:155-161 | the word counts live in a plain object, so a word naming an inherited `Object.prototype` property (such as `constructor`) starts from the inherited value: the count becomes a string that `count > 5` never passes, and `__proto__` is never stored | content with `constructor` written six times and nothing else suspicious passes the spam rule | every word longer than three characters is counted from 0 (a `Map` or `Object.create(null)`), so six `constructor`s are reported | not executed | Moderation.PrototypeWordPasses | Moderation.SpamCheckIntendedPasses |
