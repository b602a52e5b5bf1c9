# clgdate relationship and messaging core, in Dafny

This project models the core of a campus social application written in Django. It has two
main parts.

- **Relationship graph.** Users send each other directed *crushes*. A crush is flagged
  *mutual* when the reverse crush exists, and a mutual pair gets a *friendship* record.
  The graph drives a crush status (none, sent, received, mutual) and decides who may see
  a private post.
- **Conversation store.** It holds a log of chat messages with read flags, plus one
  *deletion watermark* per (owner, peer) pair: the time the owner last cleared that
  conversation. On top of these sit:
  - the conversation page, clearing a chat, and the inbox with last-message times and
    unread flags;
  - the two polling endpoints;
  - the websocket consumer that joins a room group and broadcasts messages.

Around these sit:

- the compatibility score between two questionnaires;
- the sign-up form validators and sign-up checks;
- the one-time-password (OTP) store used to log in;
- the onboarding questionnaire;
- the record declarations, with their defaults and uniqueness constraints.

Modules, one file each:

- `Wrappers`: `Option`.
- `Text`: Python string operations: `split`, `join`, `strip`, `endswith`, code-point
  order, ASCII case folding and `str(int)`.
- `AccountsModels`, `FeedModels`, `ChatModels`: records and tables. A table with a
  `unique_together` key is a map (or set) keyed by that key, so its uniqueness holds
  by construction.
- `FeedViews`, `Compatibility`, `ChatViews`, `ChatConsumers`, `AccountsForms`,
  `AccountsViews`: the views.

Each view that writes is modelled twice:

- a pure *request function* from the old tables to the reply and the new tables;
- a method on a class holding the stored tables (`RelationshipTables`, `LikeTable`,
  `ChatTables`, `OtpStore`, `UserTable`, `QuestionnaireTables`, `GroupRegistry`,
  `ChatConsumer`). The method does the writes step by step, and its `ensures` ties the
  new state to the request function.

The properties are stated as `ensures` clauses of the request functions and as lemmas
about them, and each method is proved equal to its request function.

Timestamps are integers. "Now" and the outcome of writing the chat archive file are
parameters. The random OTP is a parameter restricted to the range `randint` draws from.
Users that a request names are looked up in a map, and a missing one is the 404 of
`get_object_or_404`.

## Model

| member | source | states |
|---|---|---|
| AccountsModels.NewCrush | accounts/models.py:134-135 | a new Crush is not mutual and carries its creation time |
| AccountsModels.NewFriendship | accounts/models.py:165-166 | a new Friendship has its creation time and no confirmation time |
| AccountsModels.BlankQuestionnaire | accounts/models.py:113-121 | the row `get_or_create` inserts has every answer blank |
| AccountsModels.AreFriendsSymmetric | accounts/models.py:176-181 | `are_friends(a, b) == are_friends(b, a)` |
| AccountsModels.GetOrCreateCrush | accounts/models.py:137-138 | after get-or-create the key exists; an existing row is kept, a missing one gets the defaults; no other key changes |
| AccountsModels.GetOrCreateFriendship | accounts/models.py:168-169 | the ordered key (a, b) exists afterwards and existing rows are untouched |
| AccountsModels.SetMutual | accounts/models.py:150-153 | setting the flag on one row changes only that row's flag |
| AccountsModels.CheckMutualEffect | accounts/models.py:146-155 | with the reverse Crush both directed Crushes end mutual and the pair are friends; without it nothing changes |
| AccountsModels.CheckMutualAddsNoSecondFriendship | accounts/models.py:154-155 | friends already: the Friendship table is untouched; otherwise it gains at most (s, r); other Crush pairs are untouched |
| AccountsModels.CheckMutualKeepsOneFriendshipPerPair | accounts/models.py:154-155 | the check never creates both orientations of one pair's Friendship |
| AccountsModels.RelationshipTables.CheckMutualAndCreateFriendship | accounts/models.py:146-155 | the in-place saves leave the tables equal to `CheckMutual` of the old tables |
| FeedViews.GetCrushStatus | feed/views.py:101-107 | mutual iff both Crushes exist, sent / received iff only the outgoing / incoming one exists, none iff neither |
| FeedViews.StatusMirrored | feed/views.py:101-107 | the status seen from the other side is the mirror image (sent and received swap) |
| FeedViews.SelfActionRejected | feed/views.py:396-397 | a crush action on oneself is rejected with 403 and the endpoint's own message, on either endpoint (also feed/views.py:449-450), and writes nothing |
| FeedViews.SendCrushOutcome | feed/views.py:401-406 | the Crush current to profile exists; if the reverse existed, both are mutual and Friendship (current, profile) exists; other pairs untouched |
| FeedViews.UncrushOutcome | feed/views.py:408-417 | current to profile is gone, the reverse survives un-flagged, no Friendship in either orientation, other pairs untouched |
| FeedViews.CrushAction | feed/views.py:388-433 | the writes of `crush_action` leave the tables and reply equal to `CrushActionRequest` (405, 404, 403, then the action and the status reply) |
| FeedViews.CrushActionKeepsCoherent | feed/views.py:388-433 | every `crush_action` keeps the invariant: mutual flag iff the reverse exists, Friendships only between mutual pairs, mutual pairs are friends |
| FeedViews.MutualHeartIffBothCrushes | accounts/models.py:80-82 | while the relationship invariant holds, `has_mutual_heart` is true iff Crushes exist both ways, so it is symmetric and implies friendship |
| FeedViews.MutualCrushScenario | feed/views.py:401-406 | two sends make both sides see "mutual" with one Friendship created by the second sender |
| FeedViews.WithdrawScenario | feed/views.py:408-423 | after withdrawing from a mutual pair the withdrawing side sees "received", the other "sent", and they are no longer friends |
| FeedViews.CrushActionDuplicatesFriendship | feed/views.py:406 | re-sending after the other side created the Friendship adds one in the reverse orientation |
| FeedViews.CrushActionProfile | feed/views.py:438-490 | the writes of `crush_action_profile` leave the tables and reply equal to `CrushActionProfileRequest` (405, 404, 403, 400 for an unknown action) |
| FeedViews.ProfileActionKeepsMutualFlags | feed/views.py:456-477 | the profile endpoint keeps "mutual flag iff reverse Crush exists" |
| FeedViews.ProfileActionsSkipFriendship | feed/views.py:464-477 | accepting leaves a mutual pair without Friendship; withdrawing keeps the Friendship |
| FeedViews.LikePost | feed/views.py:288-295 | the toggle leaves the Like table and reply equal to `LikePostRequest` (400 unless POST, 404 for an unknown post) |
| FeedViews.LikeToggleOutcome | feed/views.py:291-294 | `liked` iff the Like now exists, the count moves by one that way, only that Like changes, and toggling twice restores the table |
| FeedViews.VisibilityRulesAgree | feed/views.py:146-152 | a post is listed on its owner's profile iff its comments (feed/views.py:305-307) and its details (feed/views.py:353-357) may be fetched: public, owner, or mutual Crush |
| FeedModels.NewPost | feed/models.py:36 | a new Post is not public |
| FeedModels.PostImagePath | feed/models.py:14-19 | the path is "posts/", the username, "/", the file name |
| FeedModels.PostImagePathInjective | feed/models.py:19 | for usernames without '/', the path determines the username and the file name |
| FeedModels.NewConfession | feed/models.py:87 | a new Confession is anonymous |
| FeedModels.ConfessionTitleHidesAuthor | feed/models.py:102-105 | the anonymous form is used iff `is_anonymous`, and then does not depend on the author |
| FeedModels.NewConfessionComment | feed/models.py:130 | a new ConfessionComment is not anonymous |
| FeedModels.CommentDisplayName | feed/models.py:139 | "Anonymous" for an anonymous comment, else the author's username |
| FeedModels.CommentTitleHidesAuthor | feed/models.py:138-140 | an anonymous comment's title does not depend on its author |
| Compatibility.Jaccard | feed/views.py:30-38 | the similarity lies in [0, 1] |
| Compatibility.JaccardSymmetric | feed/views.py:30-38 | the similarity is symmetric |
| Compatibility.JaccardOneIffEqual | feed/views.py:30-38 | the similarity is 1 exactly for equal sets, two empty sets included |
| Compatibility.HobbySet | feed/views.py:80-81 | a non-blank answer gives a non-empty hobby set |
| Compatibility.HobbySetOfSavedAnswer | feed/views.py:80-81 | the saved ','-join of hobbies reads back as the set of those hobbies |
| Compatibility.IntentPoints | feed/views.py:52-62 | the intent part is between 0 and its maximum 4 |
| Compatibility.PersonalityPoints | feed/views.py:66-76 | the personality part is between 0 and its maximum 4 |
| Compatibility.SubScoresSymmetric | feed/views.py:53-76 | both parts are symmetric in the two questionnaires |
| Compatibility.RawScore | feed/views.py:48-83 | the weighted total lies in [0, 100] |
| Compatibility.RoundHalfEven | feed/views.py:85 | `round`: within 0.5 of its argument, ties to the even integer |
| Compatibility.Clamp | feed/views.py:85 | `max(19, min(99, n))`: in [19, 99], identity inside, the nearer bound outside |
| Compatibility.Score | feed/views.py:85 | the score is an integer in [19, 99] |
| Compatibility.CalculateCompatibility | feed/views.py:40-86 | a score exists iff both users have a questionnaire, and any score is in [19, 99] |
| Compatibility.CompatibilitySymmetric | feed/views.py:53-85 | swapping the users gives the same result |
| Compatibility.IdenticalAnswersScore99 | feed/views.py:48-85 | identical questionnaires total 100 and score 99 |
| Compatibility.ScoreIsRoundedTotal | feed/views.py:85 | the score is the rounded total when that lies in [19, 99], 99 iff it rounds to 99 or more, 19 when at most 19 |
| Compatibility.NoCommonGroundScore19 | feed/views.py:48-85 | questionnaires matching nothing, with no partial credit and no shared hobby, total 0 and score 19 |
| ChatModels.NewMessage | chat/models.py:4-9 | a new Message is unread and carries its sender, receiver, content and time |
| ChatModels.AppendKeepsOrdered | chat/models.py:8-12 | with a clock that does not run backwards, appending keeps the log in timestamp order |
| ChatModels.WatermarksPerOwner | chat/models.py:14-20 | upserting (owner, peer) leaves every other watermark, the reverse pair's included, as it was |
| ChatModels.MarkedReadOutcome | chat/views.py:145 | marking read sets the flag on exactly the unread selected messages and changes nothing else; order is kept |
| ChatModels.ChatTables.MarkRead | chat/views.py:145 | the row-by-row update leaves the log equal to `MarkedRead` of the old log |
| ChatViews.Select | chat/views.py:166 | a filter keeps exactly the messages the test accepts, in timestamp order |
| ChatViews.SelectCounts | chat/views.py:166 | an accepted message is kept as many times as it is stored, and no other message is kept |
| ChatViews.ConversationView | chat/views.py:159-166 | the view holds exactly the messages with both ends in {user, other} newer than the user's watermark, with their multiplicity, in order |
| ChatViews.ConversationViewOwnWatermark | chat/views.py:160-164 | the view depends only on the owner's own watermark for that peer |
| ChatViews.ChatView | chat/views.py:139-168 | the writes of `chat_view` leave the tables and reply equal to `ChatViewRequest` |
| ChatViews.ChatViewOutcome | chat/views.py:144-157 | opening marks exactly the other user's messages read; non-empty content appends one unread message, else none; order is kept |
| ChatViews.DeleteChat | chat/views.py:181-226 | the writes of `delete_chat` leave the tables, reply and archive equal to `DeleteChatRequest` |
| ChatViews.DeleteChatSelfRejected | chat/views.py:185-186 | clearing a chat with oneself is refused with 400 and changes nothing |
| ChatViews.DeleteChatOutcome | chat/views.py:188-224 | the archive holds exactly the pair's messages after the old watermark, with their multiplicity, in order; a failed archive changes nothing, else only watermark (me, other) becomes now |
| ChatViews.ClearedViewIsEmpty | chat/views.py:219-224 | right after clearing, the owner's view of the conversation is empty |
| ChatViews.ClearTwiceIdempotent | chat/views.py:188-224 | a second clear with no new messages archives nothing and the view stays empty |
| ChatViews.ClearKeepsPeerView | chat/views.py:219-224 | clearing does not change the other user's view of the conversation |
| ChatViews.Partner | chat/views.py:51-53 | the partner of a message is its unique other end |
| ChatViews.ActiveConversationsCorrect | chat/views.py:18-62 | a user is listed iff a message newer than the watermark was exchanged; each row has the last-message time and the intended unread flag (`HasUnread`, the watermark of the partner); no user twice; newest first |
| ChatViews.UnreadStatusCorrect | chat/views.py:86-94 | with the intended unread flag, a user is flagged iff they sent an unread message after the owner's watermark for them |
| ChatViews.HasUnreadAsWrittenMisreads | chat/views.py:40-48 | the unread flag as written reads the watermark keyed by the message's id: it flags a cleared message and misses an uncleared one |
| ChatViews.InboxUpdates | chat/views.py:97-136 | a missing cursor and an unparseable cursor are each rejected with their 400 message; otherwise the three flags are reported |
| ChatViews.NoUpdatesAfterLatest | chat/views.py:114-136 | a cursor past every message and watermark reports no updates |
| ChatViews.PollNewMessages | chat/views.py:229-263 | the writes of `poll_new_messages` leave the tables and reply equal to `PollRequest` |
| ChatViews.PollOutcome | chat/views.py:233-261 | no cursor: nothing returned and nothing changed; unparseable cursor: 400 and nothing changed; otherwise exactly the other user's messages after the cursor, with their multiplicity and in order, are returned and each then differs from before only in being read |
| ChatViews.UnreadRoundTrip | chat/views.py:40-48 | a fresh message makes its sender unread in the receiver's inbox, and opening the chat clears the flag |
| ChatConsumers.SortedPair | chat/consumers.py:30 | `sorted` of two usernames: the same two, smaller first |
| ChatConsumers.RoomNameAsWritten | chat/consumers.py:30-31 | the room is "chat_" and the sorted usernames joined with '_' |
| ChatConsumers.RoomNameAsWrittenSymmetric | chat/consumers.py:29-31 | both parties derive the same room name |
| ChatConsumers.RoomNameAsWrittenCollides | chat/consumers.py:30-31 | two different pairs of users can derive the same room name |
| ChatConsumers.RoomNameSymmetric | chat/consumers.py:29-31 | the corrected room name is the same whichever party connects |
| ChatConsumers.RoomNameInjective | chat/consumers.py:28-31 | two corrected room names are equal iff they belong to the same pair of users |
| ChatConsumers.GroupRegistry.GroupAdd | chat/consumers.py:34-37 | the channel joins the group; no broadcast happens |
| ChatConsumers.GroupRegistry.GroupDiscard | chat/consumers.py:44-47 | the channel leaves the group; no broadcast happens |
| ChatConsumers.GroupRegistry.GroupSend | chat/consumers.py:59-66 | one broadcast is appended; group membership is unchanged |
| ChatConsumers.ChatConsumer.Connect | chat/consumers.py:10-39 | anonymous or unknown other user: closed and the registry untouched; otherwise accepted and in the pair's room group, named by the corrected id-based `RoomName` |
| ChatConsumers.ChatConsumer.Disconnect | chat/consumers.py:41-47 | leaves the room only when a room name was set; otherwise the registry is unchanged |
| ChatConsumers.ChatConsumer.Receive | chat/consumers.py:50-66 | non-empty text from an authenticated user with a resolved peer stores exactly one message and broadcasts {message, sender}; otherwise nothing happens |
| ChatConsumers.ChatConsumer.ChatMessage | chat/consumers.py:69-77 | the broadcast's message and sender go to the socket unchanged |
| AccountsForms.CleanUsername | accounts/forms.py:65-70 | rejected iff an existing username matches up to case; an accepted username is returned unchanged |
| AccountsForms.CleanCollegeEmail | accounts/forms.py:72-79 | the domain error iff the suffix is missing; the registered error iff the suffix is present and the email matches up to case; else returned unchanged |
| AccountsForms.PasswordError | accounts/forms.py:81-93 | the only error `clean` adds is the mismatch message |
| AccountsForms.PasswordErrorExactly | accounts/forms.py:90-91 | the mismatch error appears iff both passwords are present, non-empty and different |
| AccountsForms.AcceptedUsernameKeepsDistinct | accounts/forms.py:65-70 | adding an accepted username keeps all usernames distinct up to case |
| AccountsForms.AcceptedEmailKeepsDistinct | accounts/forms.py:72-79 | adding an accepted email keeps all emails distinct up to case, and it has the college domain |
| AccountsForms.UsernameCaseVariantRejected | accounts/forms.py:68-69 | a username differing from a taken one only in case is rejected |
| AccountsViews.SignupOutcome | accounts/views.py:36-80 | the domain, username, email and password checks in that order, each failure with its message and no user created; the account is created iff all pass, the username is non-empty and `create_user` accepts the other fields, and then exactly one row is added |
| AccountsViews.SignupKeepsUsersValid | accounts/views.py:46-69 | sign-up keeps usernames unique and every email on the college domain |
| AccountsViews.FormAcceptancePassesView | accounts/forms.py:65-93 | values the form validators accept also pass every check of `signup_access` (accounts/views.py:42-56); only `create_user` can still fail |
| AccountsViews.UserTable.SignupAccess | accounts/views.py:36-82 | the checks and the create, including a failing `create_user`, leave the table and reply equal to `SignupRequest` |
| AccountsViews.OtpIsSixDigits | accounts/views.py:107 | `str` of a draw from [100000, 999999] is six digits reading back as the draw |
| AccountsViews.LoginOutcome | accounts/views.py:102-155 | a known email gets a six-digit OTP for that draw, replacing any earlier one; an unknown email leaves the store unchanged |
| AccountsViews.OtpStore.LoginAccess | accounts/views.py:102-155 | the store write leaves the store and reply equal to `LoginRequest` |
| AccountsViews.LoginWithoutOtpAsWritten | accounts/views.py:165 | as written, a registered user with no pending OTP is logged in by a post without an `otp` field |
| AccountsViews.VerifyOtpOutcome | accounts/views.py:159-199 | login iff an OTP is stored for the email and equals the submitted one; success marks the user verified and deletes the OTP; failure changes nothing |
| AccountsViews.OtpStore.VerifyOtp | accounts/views.py:159-199 | the writes leave the user table, store and reply equal to `VerifyOtpRequest`, the corrected OTP test |
| AccountsViews.UserTable.MarkVerified | accounts/views.py:169-170 | only the user's `otp_verified` flag is set |
| AccountsViews.OtpIsSingleUse | accounts/views.py:105-176 | the OTP a login sends logs the user in once, and the same OTP is refused the second time |
| AccountsViews.MissingRequired | accounts/views.py:283-286 | no missing field is reported iff all five required fields are present and non-blank |
| AccountsViews.QuestionnaireOutcome | accounts/views.py:255-321 | saved iff not answered yet, all required fields given and at most 5 hobbies; it then stores the answers and the ','-joined hobbies and sets the Profile's and the User's flag; a refusal records no answer and sets no flag |
| AccountsViews.SavedQuestionnaireScores | accounts/views.py:306-314 | once saved, the user has a score against any user with answers, using exactly the chosen hobbies |
| AccountsViews.QuestionnaireTables.QuestionnaireView | accounts/views.py:255-321 | the writes leave the tables and reply equal to `QuestionnaireRequest` |
| AccountsViews.ToList | accounts/views.py:206-207 | `to_list` is empty exactly for a blank value |
| AccountsViews.ToListItems | accounts/views.py:206-207 | one stripped, ','-free item per piece of the split |
| AccountsViews.ToListOfSavedHobbies | accounts/views.py:206-207 | `to_list` gives back the saved hobbies when they have no ',' and no surrounding whitespace |

## Findings

| source | as written | input that shows it | evidently intended | confidence | as-written member | corrected member |
|---|---|---|---|---|---|---|
| accounts/views.py:165 | `otp_store.get(email) == submitted_otp` compares two optional values | a registered email with no pending OTP, posted with no `otp` field: `None == None`, so the user is logged in | log in only when an OTP is stored for the email and the submitted one equals it | not executed | AccountsViews.LoginWithoutOtpAsWritten | AccountsViews.VerifyOtpOutcome |
| chat/consumers.py:30-31 | the room name joins the two sorted usernames with '_', and usernames may contain '_' | users "a_b" and "c" share room "chat_a_b_c" with users "a" and "b_c", so each pair's broadcasts reach the other pair's sockets | one room per pair of users | not executed | ChatConsumers.RoomNameAsWrittenCollides | ChatConsumers.RoomNameInjective |
| chat/views.py:40-48 | the watermark subquery, filtering on `other_user=OuterRef('pk')`, is nested in the query over messages, so `pk` is the message's id and the watermark read for `has_unread` is the one keyed by that id | user 7's message (id 1) to user 5 at time 1 stays unread; 5 clears the chat with 7 at time 2 and writes to 7 at time 3: 7 is listed and flagged unread, though the unread message was cleared | a message counts as unread only after `u`'s watermark for its sender | not executed | ChatViews.HasUnreadAsWrittenMisreads | ChatViews.UnreadStatusCorrect |

`OtpStore.VerifyOtp` uses the intended OTP test. `ChatConsumer.Connect` uses the corrected
room name, built from the two user ids in decimal after "chat", separated by '_'. The inbox
(`ActiveConversations`, `UnreadStatus`) uses the intended unread flag `HasUnread`.

## Left out

- Image compression, email sending, profile-picture and archive file storage: I/O outside
  the model. Writing the chat archive is only a flag saying whether it succeeded.
- ORM query mechanics, pagination, template rendering, the `lazy_load_*` and search APIs,
  the debug views, and `timesince`/`strftime` formatting: no logic here to model.
- The asynchronous channel layer and concurrency: operations run one at a time.
  Nothing is claimed about the atomicity of the crush check-then-flip.
- Binary floating point: the compatibility arithmetic uses exact reals.
- Profile creation by signals, password hashing, sessions (`login`, `logout`).
- Case folding covers ASCII letters only, where the database's case-insensitive lookup
  may fold more.
- ChatModels.Ordered: the log is in storage order. It is in timestamp order only for a
  clock that does not run backwards, so the lemmas that need the order require
  `Ordered` and `ClockAfter`.
- FeedViews.ProfilePosts: the profile's `-created_at` ordering and the like and comment
  counts are not modelled. The listed posts are a set.
- FeedModels.ConfessionTitle: requires an author for the named form. The source would
  fail on a named confession with no user.
- Pages rendered for GET requests are replies without content. `questionnaire_view`'s
  pre-filled form is not modelled.
- Missing POST fields that the source reads with `data[...]` raise exceptions. The model
  takes those fields as present. A missing `college_email` at sign-up is the
  `SignupAttributeError` reply.
- AccountsViews.QuestionnaireRequest: exceptions caught by the view's `try` are not modelled.
  Profile creation by `get_or_create` is not modelled. The User's flag is `userAnswered`,
  keyed by user id. The login views keep the same column as
  `UserRow.answeredQuestionnaire`, keyed by email, and the model does not join the two
  tables, so a save here is not seen by `VerifyAfterTest`.
- `answers_view` reads fields the questionnaire model does not declare. Only `to_list`
  is modelled.
- `receive` with text that is not JSON raises. The model takes the decoded `message`
  field, or "" when it is absent.
- ChatConsumers.ChatConsumer.Connect: a failed lookup in the source still sets
  `other_user` to None before closing. The model leaves it unset, since a closed
  connection receives nothing.
- ChatViews.DeleteChatRequest: the 500 reply's message omits the exception text that the
  source appends. The 405 of `require_POST` has an empty body, modelled as an empty
  message.
- After A withdraws from a mutual pair, B's Crush on A survives, so A sees status
  "received" towards B, not "none" (`FeedViews.WithdrawScenario`).
- AccountsViews.SignupRequest: why `create_user` fails for a non-empty username
  (an unparseable `dob`, a value longer than a `max_length` the database enforces) is
  not modelled; the flag `createOk` says whether it succeeds.
- AccountsViews.SignupRequest, AccountsViews.SignupOutcome, AccountsViews.UserTable.SignupAccess:
  the stored username is the posted one, not the NFKC normal form that `create_user`
  stores, since Unicode normalisation is not modelled. So a full-width "ｂｏｂ" followed by
  "bob" creates two accounts here, where the source refuses the second with
  "Username already taken.".
- ChatConsumers.ChatConsumer.Connect: joins the room named by the corrected id-based
  `RoomName`, not the `chat_<sorted usernames>` room of chat/consumers.py:30-31, so the
  method does not capture two pairs sharing a room. The name as written is
  `RoomNameAsWritten` (see Findings).
- AccountsViews.OtpStore.VerifyOtp: runs the corrected OTP test `OtpMatches`, not the
  comparison of accounts/views.py:165 that accepts `None == None`, so the method does not
  capture a login without an OTP. That test is `VerifyOtpAsWritten` (see Findings).
- ChatViews.ActiveConversationsCorrect, ChatViews.UnreadStatusCorrect: the inbox's
  unread flag reads `u`'s watermark for the partner, not the one keyed by the message's id
  as the query at chat/views.py:40-48 does, so neither captures that misread. That flag
  is `HasUnreadAsWritten` (see Findings).
- The `ConfessionLike` toggle is not part of this model. Its table has the shape of the
  `Like` table, a set of (confession, user) keys.
