# Authentication token lifecycle of noteDDD

noteDDD is a note-taking web service. Users register with an email address and a password. They log in to get a pair of JSON Web Tokens:
- a short-lived **access token**, presented with every request;
- a longer-lived **refresh token**, traded for a fresh pair.

Both tokens are also stored in the database. A token is accepted only while its row is still there. Rotating a pair deletes the row of the pair it replaces, so the replaced tokens stop working. The database schema links each refresh row to its access row with a cascading foreign key.

This project models that lifecycle as pure functions over immutable tables:
- **Issuing** a pair (`Authenticator.GenerateAuthTokens`). It mints two payloads, encodes them, and persists both rows in one transaction. When rotating, it also deletes the predecessor pair.
- **Authenticating** a presented token (`Authenticator.AuthenticateToken`). It decodes the token and checks the variant. It looks up the row by its text, cross-checks the user id and the expiry cut to a whole second, rejects an expired token, and loads the user.
- **The use cases** that drive both:
  - login, where every failure is hidden behind one `Unauthorized` text;
  - refresh, a rotation that revokes the presented pair;
  - password change, registration, email change and account deletion.
- **What these rest on**:
  - the error type with its public and private texts;
  - its HTTP status and body;
  - the JWT codec, with expiry in whole seconds and the variant as `"access"`/`"refresh"`;
  - the token, user and note tables with their exact error texts;
  - the unit of work (begin, commit, rollback);
  - the password service;
  - the email value object.
- **The note tables and the note entity.** Their validation trims text and refuses blank titles and contents.

Tables are sequences of rows in physical order:
- `fetch_one` returns the first matching row.
- `UPDATE` and `DELETE` act on every matching row, and `rows_affected` counts them.
- `ORDER BY` is a sort proved to be sorted and a permutation of its input. The order of ties is left open.

Every database statement takes a `Fault` parameter (`None`, or the driver's error text). So every failure path of the source is reachable in the model. The JWT library, the password hasher, the clock and the UUID generator are parameters too:
- `JwtLibrary` holds a `sign` and a `verify` function.
- `Hasher` holds `hash` and `verify`.
- `Minting` holds the two clock readings and the two fresh ids that `new_access` and `new_refresh` take.
- `now` is the clock reading when a token is authenticated.

The library is only assumed `Faithful`: verifying what it signed gives back the signed claims, up to the expiry plus the library's 60-second leeway.

Where the service's specification and its code disagree, the model follows the code:
- A token that is well formed, of the right variant, but no longer stored (revoked by a rotation, or never issued) is NOT refused as `Unauthorized`. The lookup's `NotFound` error keeps its variant, so the client sees 404, with the public text reworded to "Failed to authenticate user!" (infra/src/auth/authenticator.rs lines 76-96). `Authenticator.RevokedTokenYieldsNotFound` and `Scenarios.RotationRetiresAccessToken` state this behaviour.

## Model

| member | source | states |
|---|---|---|
| Primitives.Seconds | infra/src/auth/authenticator.rs:46-47 | A lifetime configured in whole seconds is exactly that many seconds: a non-negative duration that divides into whole seconds, `secs` of them. |
| Primitives.TruncateToSecond | infra/src/auth/token_adapter.rs:56 | The expiry written to a token is the start of the whole second holding the instant: a multiple of a second, at most the instant, and less than one second before it. |
| Primitives.TruncateIsUnique | infra/src/auth/token_adapter.rs:56 | That start of the second is the only whole second within one second below the instant. |
| Primitives.TruncateShift | app/src/types/auth_token.rs:77-95 | Adding a whole-second lifetime to a clock reading commutes with cutting to whole seconds. |
| Primitives.SecondOfEarlier | infra/src/auth/authenticator.rs:105-118 | An instant no later than a token's whole-second expiry lies in a second no later than the expiry's. |
| Common.Build | common/src/error.rs:41-60 | An error is built from a variant and a base, and both can be read back. |
| Common.BuildFromParts | common/src/error.rs:211-224 | An error is exactly its variant plus its base error; nothing else is stored. |
| Common.Plain | common/src/error.rs:101-209 | The constructors without a private part: chosen variant, given public text, no private diagnostic. |
| Common.WithPrivate | common/src/error.rs:101-209 | The `*_with_private` constructors: chosen variant, given public text, given private diagnostic. |
| Common.ErrorTypeIdentifiesKind | common/src/error.rs:63-72 | Two errors have the same type name exactly when they are the same variant. |
| Common.ErrorType | common/src/error.rs:63-72 | Each variant has its own type name, one of "Internal", "BadRequest", "NotFound", "Conflict", "Unauthorized" and "Forbidden". |
| Common.Reword | common/src/error.rs:86-98 | Rewording replaces the public text and keeps the variant and the private diagnostic. |
| Common.RewordLastWins | common/src/error.rs:86-98 | Of two rewordings only the last one is visible. |
| Common.ShowBaseHidesPrivate | common/src/error.rs:35-39 | Displaying a base error shows its public text only, whatever the private diagnostic. |
| Common.Describe | common/src/error.rs:41-60 | Displaying an error gives the variant's prefix, then the public text. |
| Common.KindPrefix | common/src/error.rs:41-60 | Each variant has its own display prefix: "Internal Server Error: ", "Bad Request: ", "Not Found: ", "Conflict: ", "Unauthorized: ", "Forbidden: ". |
| Common.DescribeHidesPrivate | common/src/error.rs:41-60 | An error's display does not depend on its private diagnostic. So a private part wrapped into another error's diagnostic is lost. |
| Presentation.StatusCode | pres/src/types/error.rs:17-26 | Each variant has its own HTTP status: 500, 400, 404, 409, 401 or 403, each if and only if the variant is the matching one. |
| Presentation.StatusCodeIdentifiesKind | pres/src/types/error.rs:17-38 | Two errors share a status exactly when they share a variant, and exactly when they share a body type. |
| Presentation.Body | pres/src/types/error.rs:33-38 | The response body carries the variant's type name and the public text. |
| Presentation.ResponseHidesPrivate | pres/src/types/error.rs:29-40 | Errors differing only in the private diagnostic give the same status and body. |
| Presentation.RewordChangesOnlyMessage | pres/src/types/error.rs:33-38 | Rewording changes the response message and nothing else. |
| Text.TrimStart | dmn/src/entities/note/validation/mod.rs:20 | Trimming the front drops a blank prefix and leaves a suffix that is empty or starts with a non-blank character. |
| Text.TrimEnd | dmn/src/entities/note/validation/mod.rs:20 | Trimming the back drops a blank suffix and leaves a prefix that is empty or ends with a non-blank character. |
| Text.Trim | dmn/src/entities/note/validation/mod.rs:20 | Trimmed text is no longer than the input and has no blank at either end. |
| Text.TrimIsMiddle | dmn/src/entities/note/validation/mod.rs:20 | Trimmed text is a middle slice of the input with only blanks around it. |
| Text.TrimEmptyIffBlank | dmn/src/entities/note/validation/mod.rs:20-21 | Trimming gives the empty string exactly when the input is all blanks. |
| Text.TrimIdempotent | dmn/src/entities/note/validation/mod.rs:20 | Trimming twice is trimming once. |
| Text.TrimFixesExactlyTidy | dmn/src/entities/note/validation/mod.rs:20 | Trimming leaves exactly the texts that have no blank at either end unchanged. |
| Tables.FirstIndex | infra/src/db/user/get_user.rs:16-19 | The position `fetch_one` reads is the first matching row; no row matches when there is none. |
| Tables.FirstIndexAt | infra/src/db/user/get_user.rs:16-19 | A matching row with no match before it is the one `fetch_one` reads. |
| Tables.FirstWhere | infra/src/db/note/get_note.rs:28-35 | `fetch_one` yields a matching row of the table; it yields nothing exactly when no row matches. |
| Tables.Select | infra/src/db/note/get_notes.rs:25 | A `WHERE` keeps the matching rows and only them, never more rows than the table has. |
| Tables.Remove | infra/src/db/note/delete_note.rs:18-21 | A `DELETE ... WHERE` keeps the non-matching rows and only them, never more rows than the table has. |
| Tables.RemoveCountsAffected | infra/src/db/note/delete_note.rs:30 | The rows a delete removes plus those it keeps are all the rows, so `rows_affected` counts the matches. |
| Tables.RemoveNothing | infra/src/db/note/delete_note.rs:30-31 | A delete matching nothing leaves the table exactly as it was. |
| Tables.SelectRemovePartition | infra/src/db/note/delete_note.rs:18-30 | The rows a delete removes and the rows it keeps are together the table's rows, each with its multiplicity. |
| Tables.SelectCounts | infra/src/db/note/get_notes.rs:25 | A `WHERE` keeps every copy of a matching row and no copy of any other; a delete the converse. |
| Tables.SelectAppend | infra/src/db/note/get_notes.rs:25 | Selecting from a concatenation concatenates the selections, so table order is kept. |
| Tables.RemoveAppend | infra/src/db/note/delete_note.rs:18-21 | Deleting from a concatenation concatenates the survivors, so table order is kept. |
| Tables.FilterOne | infra/src/db/note/delete_note.rs:18-21 | A single row is selected, and deleted, exactly when it matches. |
| Tables.UpdateWhere | infra/src/db/note/update_note.rs:21-27 | An `UPDATE ... WHERE` changes exactly the matching rows, in place. |
| Tables.MapRows | infra/src/db/auth_token/get_user_tokens.rs:57-75 | Converting rows keeps their count and order. |
| Tables.InsertDesc | infra/src/db/note/get_notes.rs:26 | Inserting into a descending table keeps it descending and adds exactly that row. |
| Tables.SortDesc | infra/src/db/note/get_notes.rs:26 | `ORDER BY ... DESC` gives a descending permutation of the rows. |
| Tables.Page | infra/src/db/note/get_notes.rs:27-28 | `OFFSET skip LIMIT limit` gives the rows from `skip` on, at most `limit` of them, in order. |
| Tables.PageOfSorted | infra/src/db/note/get_notes.rs:26-28 | A page of a sorted table is sorted and drawn from it; the first page with room for all rows is the whole table. |
| Tables.AppendKeepsDistinct | infra/src/db/user/create_user.rs:15-24 | Inserting a row whose key is new keeps keys unique. |
| Tables.RemoveKeepsDistinct | infra/src/db/user/delete_user.rs:16-30 | Deleting rows keeps keys unique. |
| AuthTokens.AccessIdentifierText | app/src/types/auth_token.rs:55-62 | An access identifier displays as the id or the jwt of every row it selects. |
| AuthTokens.RefreshIdentifierText | app/src/types/auth_token.rs:64-74 | A refresh identifier displays as the id, jwt or access-token id of every row it selects. |
| AuthTokens.RowsMatchTheirOwnKeys | app/src/types/auth_token.rs:19-30 | Every row is selected by each identifier built from its own columns. |
| AuthTokens.NewAccess | app/src/types/auth_token.rs:77-85 | A new access payload has the access variant, the user and a fresh id, and expires exactly the lifetime after the clock reading. Cut to a whole second, its expiry is the cut reading plus the lifetime. |
| AuthTokens.NewRefresh | app/src/types/auth_token.rs:87-95 | The same for a refresh payload. |
| TokenCodec.VariantConversionsInverse | infra/src/auth/token_adapter.rs:81-108 | The variant conversions between payload and claims are mutually inverse. |
| TokenCodec.ToClaims | infra/src/auth/token_adapter.rs:70-79 | Converting a payload to claims keeps its variant. |
| TokenCodec.FromClaims | infra/src/auth/token_adapter.rs:90-99 | Converting claims to a payload keeps its variant. |
| TokenCodec.ClaimsConversionsInverse | infra/src/auth/token_adapter.rs:70-99 | Payload and claims convert back and forth without loss. |
| TokenCodec.ParseVariant | infra/src/auth/token_adapter.rs:62-68 | Only the names `"access"` and `"refresh"` parse, each to the variant of that name. |
| TokenCodec.VariantNameBijection | infra/src/auth/token_adapter.rs:62-68 | A string parses to a variant exactly when it is that variant's name. |
| TokenCodec.VariantName | infra/src/auth/token_adapter.rs:62-68 | The access variant is serialised as "access" and the refresh variant as "refresh", and no other way. |
| TokenCodec.ToClaimsVariant | infra/src/auth/token_adapter.rs:81-88 | A payload variant maps to the claims variant of the same name. |
| TokenCodec.FromClaimsVariant | infra/src/auth/token_adapter.rs:101-108 | A claims variant maps to the payload variant of the same name. |
| TokenCodec.Serialize | infra/src/auth/token_adapter.rs:50-60 | On the wire, `exp` is the expiry in whole seconds and `type` names the variant. |
| TokenCodec.Deserialize | infra/src/auth/token_adapter.rs:50-68 | Wire claims deserialize exactly when their `type` names a known variant. |
| TokenCodec.SerializeRoundTrip | infra/src/auth/token_adapter.rs:50-60 | Deserializing serialized claims gives them back with the expiry cut to a whole second. |
| TokenCodec.Encode | infra/src/auth/token_adapter.rs:23-34 | Encoding succeeds exactly when the library signs the serialized claims, and yields its token. Otherwise the error is `Internal` "Failed to encode token!" with the library's text as diagnostic. |
| TokenCodec.Decode | infra/src/auth/token_adapter.rs:36-47 | Decoding yields only payloads whose claims the library verified; every failure is `Internal` "Failed to decode token!" with a diagnostic. |
| TokenCodec.CodecRoundTrip | infra/src/auth/token_adapter.rs:23-47 | With a faithful library, a token decodes, before expiry plus leeway, to the payload it was issued for with the expiry cut to a whole second. |
| TokenStore.CreateAccessToken | infra/src/db/auth_token/create_access_token.rs:8-38 | Insertion succeeds exactly when there is no fault and the id is new; the row is appended and returned. A failure is `Internal` with the statement's text and leaves the tables alone. Table validity is kept. |
| TokenStore.CreateRefreshToken | infra/src/db/auth_token/create_refresh_token.rs:8-41 | The same, and the access row it points to must exist (the foreign key). |
| TokenStore.GetAccessToken | infra/src/db/auth_token/get_access_token.rs:7-40 | The first access row the identifier selects. `NotFound` naming the identifier exactly when none is selected; `Internal` on a fault. |
| TokenStore.GetAccessByIdIsExact | infra/src/db/auth_token/get_access_token.rs:15-18 | With unique ids, looking a row up by its id gives that row. |
| TokenStore.GetRefreshToken | infra/src/db/auth_token/get_refresh_token.rs:7-48 | The first refresh row the identifier selects, by id, jwt or access-token id. `NotFound` exactly when none is selected; `Internal` on a fault. |
| TokenStore.Cascade | infra/src/db/auth_token/delete_token_pair.rs:20 | The cascade keeps exactly the refresh rows not belonging to a deleted access row. |
| TokenStore.DeleteTokenPair | infra/src/db/auth_token/delete_token_pair.rs:6-37 | Succeeds exactly when a row is selected and there is no fault. Then it removes exactly the selected access rows and exactly their refresh rows. `NotFound` when nothing matches, `Internal` on a fault; tables untouched on failure. |
| TokenStore.PairOf | infra/src/db/auth_token/get_user_tokens.rs:57-75 | A joined pair is linked and belongs to one user. |
| TokenStore.JoinOne | infra/src/db/auth_token/get_user_tokens.rs:19-31 | A refresh row joins exactly the access rows it points to. |
| TokenStore.Join | infra/src/db/auth_token/get_user_tokens.rs:19-31 | The join holds exactly the pairs of a user's refresh row with the access row it points to. |
| TokenStore.GetUserTokens | infra/src/db/auth_token/get_user_tokens.rs:8-45 | The user's pairs, exactly, latest access expiry first; `Internal` with the per-user text on a fault. |
| Users.FromData | dmn/src/entities/user/mod.rs:17-29 | Building a user from its fields always succeeds and keeps every field. |
| Users.FromFieldsRoundTrip | dmn/src/entities/user/mod.rs:17-47 | A user rebuilt from its own fields is the same user. |
| Users.SetEmail | dmn/src/entities/user/mod.rs:50-54 | Setting the email always succeeds, stores the email, stamps `updated_at` and keeps the other fields. |
| Users.SetEmailLastWins | dmn/src/entities/user/mod.rs:50-54 | Of two email changes only the last is visible. |
| Users.IdentifierText | dmn/src/entities/user/mod.rs:57-70 | A user identifier displays as the id or the email text it holds. |
| Users.UserIdentifiesItself | dmn/src/entities/user/mod.rs:57-61 | A user is identified by its own id and its own email. |
| UserStore.GetUser | infra/src/db/user/get_user.rs:7-41 | Yields the first user the identifier selects. `NotFound` exactly when none is selected; `Internal` naming the identifier on a fault. |
| UserStore.GetUserByIdIsExact | infra/src/db/user/get_user.rs:16-19 | With unique ids, looking a user up by its id gives that user. |
| UserStore.GetUserPasswordHash | infra/src/db/user/get_user_pass_hash.rs:6-36 | Yields the stored hash of the selected user, with the same `NotFound`/`Internal` split. |
| UserStore.ApplyUpdate | infra/src/db/user/update_user.rs:29-33 | `COALESCE`: a given field replaces the stored one and an absent one keeps it; identity and timestamps are kept. |
| UserStore.UpdateUser | infra/src/db/user/update_user.rs:7-51 | Nothing to update is `BadRequest` before any statement. Otherwise it succeeds exactly when a row is selected and there is no fault, and updates exactly the selected rows. |
| UserStore.DeleteUser | infra/src/db/user/delete_user.rs:6-36 | Succeeds exactly when a user is selected and there is no fault, and removes exactly the selected users. Both failures share one public text: `NotFound` when nothing matched, `Internal` on a fault. |
| UserStore.CreateUser | infra/src/db/user/create_user.rs:6-32 | Inserts a user with the fresh id and both timestamps set to now, appended after the existing rows; `Internal` on a fault or a taken id. |
| NoteStore.GetNote | infra/src/db/note/get_note.rs:7-41 | Yields a note with that id, visible to the owner filter. `NotFound` exactly when none matches; `Internal` on a fault. |
| NoteStore.ForeignNoteLooksMissing | infra/src/db/note/get_note.rs:28-30 | Another user's note is reported exactly as if it did not exist. |
| NoteStore.VisibleByRecency | infra/src/db/note/get_notes.rs:25-26 | Exactly the visible notes, newest first. |
| NoteStore.GetNotes | infra/src/db/note/get_notes.rs:7-37 | One page of the visible notes, newest first, at most `limit` long; `Internal` on a fault. |
| NoteStore.UpdateNote | infra/src/db/note/update_note.rs:7-47 | Succeeds exactly when a visible note has the id and there is no fault. It sets title and content on exactly the matching rows. `NotFound` or `Internal` otherwise, with the table untouched. |
| NoteStore.DeleteNote | infra/src/db/note/delete_note.rs:6-35 | Succeeds exactly when a visible note has the id. It removes exactly the matching notes and the table shrinks. `NotFound` when nothing is affected, `Internal` on a fault. |
| Notes.ValidateNonBlank | dmn/src/entities/note/validation/mod.rs:19-39 | A text is accepted exactly when it is not all blanks; the accepted value is the trimmed, non-empty text. |
| Notes.ValidateTitle | dmn/src/entities/note/validation/mod.rs:19-28 | A title is accepted exactly when not blank, as its trimmed text; otherwise `BadRequest` "Note title cannot be empty!". |
| Notes.ValidateContent | dmn/src/entities/note/validation/mod.rs:30-39 | The same for content, with "Note content cannot be empty!". |
| Notes.ValidatedFieldIsStable | dmn/src/entities/note/validation/mod.rs:19-39 | Validating an already validated field gives it back unchanged. |
| Notes.ValidateFields | dmn/src/entities/note/validation/mod.rs:4-17 | Both fields must be non-blank; the title is checked first. |
| Notes.ValidateCreate | dmn/src/entities/note/validation/mod.rs:4-10 | Create data passes exactly when both fields are non-blank, and is returned untrimmed. |
| Notes.ValidateUpdate | dmn/src/entities/note/validation/mod.rs:11-17 | The same for update data. |
| Notes.FromData | dmn/src/entities/note/mod.rs:18-34 | A note is built exactly when both fields are non-blank, holding them trimmed and every other field unchanged. |
| Notes.SetTitle | dmn/src/entities/note/mod.rs:63-68 | A non-blank title is stored trimmed with `updated_at` stamped. A blank one changes nothing and is refused. Trimmed notes stay trimmed. |
| Notes.SetContent | dmn/src/entities/note/mod.rs:70-75 | The same for content. |
| Notes.TidyTextValidates | dmn/src/entities/note/validation/mod.rs:19-39 | Non-empty text without blanks at its ends is accepted as it is. |
| Notes.RebuildsIffTrimmed | dmn/src/entities/note/mod.rs:18-60 | A note rebuilt from its own fields is the same note exactly when its title and content are trimmed. |
| Notes.FromDataIsStable | dmn/src/entities/note/mod.rs:18-34 | A built note is trimmed, and rebuilding it from its fields gives it back. |
| EmailAddress.DotLabelsIsDotTail | dmn/src/value_objects/email/mod.rs:45 | The `(\.[a-zA-Z0-9-]+)+` part of the pattern is exactly what the scanning matcher accepts as a domain tail. |
| EmailAddress.DomainSplits | dmn/src/value_objects/email/mod.rs:45 | A domain splits into a first label and a tail of dotted labels. |
| EmailAddress.DomainJoins | dmn/src/value_objects/email/mod.rs:45 | A first label followed by dotted labels is a domain. |
| EmailAddress.ValidEmailIsMatch | dmn/src/value_objects/email/mod.rs:43-48 | Every address the matcher accepts matches the pattern. |
| EmailAddress.LocalPartHasNoAt | dmn/src/value_objects/email/mod.rs:45 | The local-part character class has no `@`. |
| EmailAddress.FirstAtEndsLocalPart | dmn/src/value_objects/email/mod.rs:45 | In a match, the `@` after the local part is the string's first `@`. |
| EmailAddress.MatchIsValidEmail | dmn/src/value_objects/email/mod.rs:43-48 | Every string matching the pattern is accepted by the matcher. |
| EmailAddress.MatchAtIsValidEmail | dmn/src/value_objects/email/mod.rs:43-48 | A match whose `@` and first domain label are at the given positions is accepted by the matcher. |
| EmailAddress.ValidEmailMatchesPattern | dmn/src/value_objects/email/mod.rs:43-48 | The matcher accepts a string exactly when it matches the pattern. |
| EmailAddress.TryFromString | dmn/src/value_objects/email/mod.rs:9-21 | Accepts exactly the strings matching the pattern and stores them verbatim. Otherwise `Internal` "Invalid email address (...)!" naming the input. |
| EmailAddress.AsStrRoundTrip | dmn/src/value_objects/email/mod.rs:9-41 | The text of an accepted address parses back to the same address. |
| EmailAddress.DotLabelsCons | dmn/src/value_objects/email/mod.rs:45 | A dot and a label in front of dotted labels, or of nothing, are dotted labels. |
| EmailAddress.AcceptsAddress | dmn/src/value_objects/email/mod.rs:9-21 | A local part, `@`, a label and dotted labels form an accepted address, stored verbatim. |
| EmailAddress.AcceptsShortestAddress | dmn/src/value_objects/email/tests.rs:10 | "a@b.co" is accepted and stored as given. |
| EmailAddress.AcceptsTestAddress | dmn/src/value_objects/email/tests.rs:6 | "test@example.com" is accepted and stored as given. |
| EmailAddress.AcceptsDottedLocalPart | dmn/src/value_objects/email/tests.rs:7 | "user.name@domain.co.uk" is accepted and stored as given. |
| EmailAddress.AcceptsTaggedAddress | dmn/src/value_objects/email/tests.rs:8 | "user+tag@example.org" is accepted and stored as given. |
| EmailAddress.AcceptsHyphenatedDomain | dmn/src/value_objects/email/tests.rs:9 | "user123@test-domain.com" is accepted and stored as given. |
| EmailAddress.AcceptsSymbolInLocalPart | dmn/src/value_objects/email/tests.rs:11 | "test.email.with+symbol@example.com" is accepted and stored as given. |
| EmailAddress.AcceptsUnderscore | dmn/src/value_objects/email/tests.rs:12 | "user_name@example-domain.com" is accepted and stored as given. |
| EmailAddress.AcceptsLongAddress | dmn/src/value_objects/email/tests.rs:76-81 | 64 `a`s, `@`, 63 `b`s and ".com" is accepted. |
| EmailAddress.AcceptsSubdomain | dmn/src/value_objects/email/tests.rs:84-85 | "test.email+tag@sub-domain.example.com" is accepted. |
| EmailAddress.RejectedWithoutAt | dmn/src/value_objects/email/mod.rs:43-48 | A string without `@` is refused. |
| EmailAddress.RejectedByDomain | dmn/src/value_objects/email/mod.rs:43-48 | A string whose text after its first `@` is not a domain is refused. |
| EmailAddress.RejectedByLocalPart | dmn/src/value_objects/email/mod.rs:43-48 | A string whose text before its first `@` is not a local part is refused. |
| EmailAddress.RejectsMissingParts | dmn/src/value_objects/email/tests.rs:27-30 | "", "invalid", "@domain.com" and "user@" are refused. |
| EmailAddress.RejectsDomainWithoutDot | dmn/src/value_objects/email/tests.rs:31 | "user@domain" is refused. |
| EmailAddress.RejectsMissingAt | dmn/src/value_objects/email/tests.rs:32 | "user.domain.com" is refused. |
| EmailAddress.RejectsTrailingDot | dmn/src/value_objects/email/tests.rs:33 | "user@domain." is refused. |
| EmailAddress.RejectsDoubledAt | dmn/src/value_objects/email/tests.rs:34 | "user@@domain.com" is refused. |
| EmailAddress.RejectsSecondAt | dmn/src/value_objects/email/tests.rs:35 | "user@domain@com" is refused. |
| EmailAddress.RejectsSpaceInLocalPart | dmn/src/value_objects/email/tests.rs:36 | "user name@domain.com" is refused. |
| EmailAddress.RejectsSpaceInDomain | dmn/src/value_objects/email/tests.rs:37 | "user@domain .com" is refused. |
| EmailAddress.RejectsDoubleDot | dmn/src/value_objects/email/tests.rs:38 | "user@domain..com" is refused. |
| UnitOfWork.RunInTransaction | infra/src/tx/mod.rs:35-60 | A begin failure skips the work. A successful work is committed, and a commit failure is `Internal` "Failed to commit transaction!". A failed work is rolled back and its error returned, unless the rollback fails. Whatever fails, the state is the one before. |
| UnitOfWork.BeginFailureSkipsWork | infra/src/tx/mod.rs:35-37 | When begin fails, what the work would do makes no difference. |
| UnitOfWork.FaultFreeTransaction | infra/src/tx/mod.rs:39-60 | Without database faults, the transaction yields the work's result, and keeps the work's state only on success. |
| UnitOfWork.TransactionErrorsAreAccountedFor | infra/src/tx/mod.rs:35-60 | Every error is the begin, commit or rollback error, or the work's own. |
| PasswordService.Hash | infra/src/auth/pass_service.rs:27-30 | Hashing passes the hasher's result and error through unchanged. |
| PasswordService.ValidatePasswordStrength | infra/src/auth/pass_service.rs:70-74 | Every password passes the strength check. |
| PasswordService.VerifyPassword | infra/src/auth/pass_service.rs:32-68 | Succeeds exactly when the stored hash is fetched and the hasher says the password matches. Every failure is `Unauthorized` "Failed to verify user password!", and the private text names the cause. An unknown user always fails. |
| PasswordService.UnknownUserLooksLikeWrongPassword | infra/src/auth/pass_service.rs:37-65 | A user who does not exist and a wrong password give the same variant and public text. |
| Authenticator.IssueError | infra/src/auth/authenticator.rs:141 | An issuance failure is `Internal` "Failed to generate auth tokens!" describing the step's error. |
| Authenticator.AccessPayload | infra/src/auth/authenticator.rs:144 | The access payload is of the access variant, for the user, under the fresh id, expiring the configured access lifetime after the clock reading. |
| Authenticator.RefreshPayload | infra/src/auth/authenticator.rs:145 | The refresh payload is of the refresh variant, for the user, under the fresh id, expiring the configured refresh lifetime after the clock reading. |
| Authenticator.MintedPair | infra/src/auth/authenticator.rs:154-166 | The two records take the payloads' ids, users and expiries and the encoded tokens; the refresh record points at the access record. |
| Authenticator.PersistPair | infra/src/auth/authenticator.rs:170-201 | The transaction body inserts the access row, then the refresh row, then deletes the revoked pair. It succeeds exactly when all three steps can, and leaves the old rows plus the new pair minus the revoked pair. |
| Authenticator.GenerateAuthTokens | infra/src/auth/authenticator.rs:136-205 | A failure is always `Internal` and leaves the tables untouched. An issued pair is linked, belongs to the user, carries the encoded tokens, and expires the configured lifetimes after its clock readings. The tables afterwards hold the old rows plus the new pair minus the revoked pair. A rotation whose predecessor is missing fails. Table validity is kept. |
| Authenticator.GenerateSucceedsExactly | infra/src/auth/authenticator.rs:136-205 | Issuance succeeds exactly when both payloads encode, the transaction begins and commits, both new ids are free, and a pair to revoke is deleted without failure and exists. |
| Authenticator.Rejected | infra/src/auth/authenticator.rs:60-118 | A refusal is `Unauthorized` "Failed to authenticate user!" with the reason as private text. |
| Authenticator.LookUpToken | infra/src/auth/authenticator.rs:76-96 | A token is found exactly when there is no fault and a row of its variant holds its text. A failed lookup keeps its variant and diagnostic and is reworded. |
| Authenticator.AuthenticateToken | infra/src/auth/authenticator.rs:55-131 | Every failure shows the same public text. A bad token or a wrong variant is refused, and so is any token whose user cannot be fetched. Only a failed lookup surfaces as other than `Unauthorized`. On success, the user exists with the decoded id, and the stored row holds the token. That row agrees with the payload on user and whole-second expiry and has not expired. |
| Authenticator.RevokedTokenYieldsNotFound | infra/src/auth/authenticator.rs:76-96 | A valid token of the right variant that is no longer stored is refused with `NotFound`, not `Unauthorized`. |
| Authenticator.AuthenticationSucceeds | infra/src/auth/authenticator.rs:55-131 | A decodable token of the right variant, stored for its user with a matching unexpired expiry, and whose user exists, authenticates to that user and that row. |
| Authenticator.ExpiredTokenIsRejected | infra/src/auth/authenticator.rs:105-118 | A stored token whose whole-second expiry lies before now is refused as expired. |
| Authenticator.UserIdMismatchIsRejected | infra/src/auth/authenticator.rs:99-104 | A stored token whose row names another user than the payload is refused as a user id mismatch. |
| Authenticator.ExpiryMismatchIsRejected | infra/src/auth/authenticator.rs:105-111 | A stored token whose whole-second expiry differs from the payload's is refused as an expiry mismatch. |
| Authenticator.UserFetchFailureIsRejected | infra/src/auth/authenticator.rs:120-128 | A token that passes every check but whose user cannot be fetched is refused as `Unauthorized`, with the fetch's error as diagnostic. |
| Authenticator.AuthenticateAccessToken | infra/src/auth/authenticator.rs:207-219 | Authentication as an access token yields the user and the stored access row holding the presented text. |
| Authenticator.AuthenticateRefreshToken | infra/src/auth/authenticator.rs:221-233 | Authentication as a refresh token yields the user and the stored refresh row holding the presented text. |
| AuthUseCases.AttemptLogin | app/src/usecases/auth/login.rs:41-60 | The first failing step (parse, user lookup, password check) decides the error, returned as it is with the tables untouched. Once the user is found and the password checks out, the outcome is issuance for that user without revocation. Login revokes nothing. |
| AuthUseCases.Login | app/src/usecases/auth/login.rs:30-39 | Every failure is `Unauthorized` "Login failed. Please check your credentials and try again." and carries the attempt's error as private text. A malformed address is refused whatever the tables hold. |
| AuthUseCases.LoginSucceeds | app/src/usecases/auth/login.rs:30-60 | A parsable address of an existing user with the right password, without database failures, with encodable payloads and fresh ids, logs in. |
| AuthUseCases.Refresh | app/src/usecases/auth/refresh.rs:19-31 | The new pair belongs to the context's user. Afterwards the tables hold the old rows minus the presented pair plus the new pair, and nothing else; the presented pair must have been there before. A failure is `Internal` with the issuance's or the transaction's public text, and leaves the tables untouched; an encoding failure is issuance's error describing it, and a failed begin is the transaction's begin error. |
| AuthUseCases.RefreshSucceedsExactly | app/src/usecases/auth/refresh.rs:19-31 | A rotation succeeds exactly when both payloads encode, the transaction runs, the new ids are free, the delete runs and the presented pair's access row exists. |
| AuthUseCases.SecondRefreshLoses | app/src/usecases/auth/refresh.rs:24-29 | Once a rotation has succeeded, a second rotation with the same refresh token fails and changes nothing. |
| AuthUseCases.ChangePassword | app/src/usecases/auth/change_pass.rs:27-50 | The first failing step (password check, hashing, update) decides the error, returned as it is with the table untouched. The change succeeds exactly when the current password checks out, the new one hashes and the update runs; then the new hash is set on exactly the user's rows. |
| AuthUseCases.ChangePasswordTakesEffect | app/src/usecases/auth/change_pass.rs:44-48 | After a change, the user's stored hash is the hash of the new password. |
| UserUseCases.ParseEmail | app/src/usecases/user/register_user.rs:57-68 | An address that does not parse is `BadRequest` with the parser's text. |
| UserUseCases.Availability | app/src/usecases/user/update_self_user.rs:29-45 | The email is available exactly when the lookup says `NotFound` or finds the caller itself. Another holder is `Conflict`; another lookup error is reworded. |
| UserUseCases.RegisterUser | app/src/usecases/user/register_user.rs:27-47 | A registration succeeds exactly when the password hashes, the email parses and is unused, and the creation runs with a free id; it appends the user with the hash. Each failure has its own error and leaves the table untouched. Valid tables and unique emails are kept. |
| UserUseCases.UpdateSelfUser | app/src/usecases/user/update_self_user.rs:20-52 | The change succeeds exactly when the email parses and is free or the caller's, the caller's row exists and no statement fails; it sets the email on exactly the caller's rows and leaves the password hash alone. `Conflict` when another user holds it; the update's own error is returned as it is; the table is untouched on failure. |
| UserUseCases.DeleteSelfUser | app/src/usecases/user/delete_self_user.rs:24-39 | Deletes exactly the caller's rows, and succeeds exactly when the password is verified and the delete runs. A failed verification returns its error as it is. |
| UserUseCases.DeletedUserIsGone | app/src/usecases/user/delete_self_user.rs:33-37 | After deleting one's account, fetching the user finds nothing and no password verifies for it. |
| UserUseCases.UpdateSelfKeepsEmailsUnique | app/src/usecases/user/update_self_user.rs:27-50 | Changing one's email keeps emails unique across users. |
| UserUseCases.SoleHolder | app/src/usecases/user/update_self_user.rs:29-45 | With unique emails, an email that is free or the caller's is held by no other user. |
| Scenarios.IssuedAccessRowIsUnique | infra/src/auth/authenticator.rs:170-201 | After issuance, the only access row holding the new token's text is the issued row. |
| Scenarios.AccessPayloadDecodes | infra/src/auth/authenticator.rs:144-153 | The issued access token decodes, before expiry plus leeway, to its payload with the expiry cut to a whole second. |
| Scenarios.IssuedAccessLooksUp | infra/src/auth/authenticator.rs:76-96 | Looking up an issued, unrevoked access token finds the issued row. |
| Scenarios.IssuedAccessTokenAuthenticates | infra/src/auth/authenticator.rs:136-219 | A freshly issued access token authenticates, up to its whole-second expiry, to its user and its own row. |
| Scenarios.IssuedRefreshTokenAuthenticates | infra/src/auth/authenticator.rs:136-233 | The same for the refresh token. |
| Scenarios.LoginTokenAuthenticates | app/src/usecases/auth/login.rs:41-60 | The access token from a login authenticates to the user who holds the email logged in with. |
| Scenarios.TokensWorkOnlyForTheirVariant | infra/src/auth/authenticator.rs:67-72 | An issued refresh token presented as an access token is refused for its variant, whatever the tables hold, and the other way round. |
| Scenarios.LeewayDoesNotExtendLife | infra/src/auth/authenticator.rs:105-118 | An issued access token past its whole-second expiry is refused as expired, even while the library's leeway still accepts it. |
| Scenarios.RotationRetiresAccessToken | app/src/usecases/auth/refresh.rs:19-31 | After a rotation, the replaced access token is refused with `NotFound` (HTTP 404). |
| Scenarios.RotationRetiresRefreshToken | app/src/usecases/auth/refresh.rs:19-31 | After a rotation, the refresh token that was presented is refused with `NotFound` (HTTP 404). |

## Left out

- The HTTP layer (routes, handlers, DTOs, the bearer-token extractor) and start-up wiring are not modelled. Configuration enters as `Config`; the two lifetimes are independent parameters.
- The repository adapters and the database row models are collapsed into the table functions, because they only convert between equal shapes. Type-erased transaction results are not modelled either.
- The JWT library (HS256 signing, validation with a 60-second leeway), bcrypt, the regex engine, the UUID generator and the clock are foreign code. They are parameters. Of the JWT library only `Faithful` is assumed; the password hasher is entirely abstract.
- Concurrency is not modelled; requests run one after another. Two rotations racing on one refresh token are modelled only in sequence (`AuthUseCases.SecondRefreshLoses`).
- Logging (`log`) is not modelled; it has no effect on results.
- The user validation module (dmn/src/entities/user/validation) is not part of this model. Its `validate` steps are treated as accepting their input unchanged.
- The database schema is not part of this model. It is assumed that ids are primary keys and that deleting an access row cascades to its refresh rows. Cascades from users to tokens and notes are not modelled. No unique index on the email column is assumed; the use cases keep emails unique (`UserUseCases.EmailsUnique`).
- Timestamps are exact instants in nanoseconds. PostgreSQL's microsecond storage is not modelled; it does not affect the whole-second comparison.
- Primitives.Seconds: lifetimes are non-negative integers. The `u32` bound on the configured seconds is not enforced.
- Authenticator.AuthenticateToken: one clock reading `now` serves both the library's expiry validation and the explicit expiry check. The source reads the clock separately for each.
- The note use cases (create, get, list, update, delete) and `create_note`, `get_users`, `get_user_count` and `get_note_count` are outside the authentication core. Only the note tables and the note entity are modelled.
- Tables.SortDesc: the order of rows with equal sort keys is not fixed, as `ORDER BY` does not fix it. Only the descending order and the permutation are stated.
- UnitOfWork.RunInTransaction: a failed commit is modelled as leaving the state as it was before, as PostgreSQL aborts the transaction.
- Scenarios.RotationRetiresAccessToken: requires that the new access token's text differs from the replaced one and that the replaced token still decodes. It does not cover a library that issues the same text twice.
- Scenarios.IssuedAccessTokenAuthenticates: requires that no earlier access row held the new token's text, which the source leaves to the signing library's fresh ids.
- PasswordService.ValidatePasswordStrength: the strength check is a stub that accepts everything, and is modelled so.
- UserUseCases.DeleteSelfUser: deleting a user does not delete that user's token rows, because the cascade from users to tokens is a schema property the model leaves out. In the program the cascade removes them, so a later request with such a token fails at the token lookup with `NotFound` (404). In the model the token row is still found and the request fails at the user fetch with `Unauthorized` (401). Both refuse the token.
