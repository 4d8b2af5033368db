# OneStop core in Dafny

OneStop is a web application for international students. An Express API
serves housing search (proxied to the RentCast listings service), a
community forum, banking guidance articles, document storage, roommate
matching, marketplace listings and surveys. A Next.js web app holds the
housing search page, the banking resource list, the required-documents
checklist, the client-side file encryption helpers and the NextAuth
configuration.

This project models the decision logic of that application and proves what
it promises:

- **Route handlers over in-memory tables** (`roommates.dfy`, `forum.dfy`,
  `listings.dfy`, `banking.dfy`, `documents.dfy`, `surveys.dfy`). Each
  Postgres table is a `seq<Row>` field of a class, with the next id. Each
  handler is a method. Its contract gives the 400 / 404 / 409 / 401 reply
  for each rejected input and says that the table is then unchanged. On
  success it states the exact new table and the reply. The table
  invariants (distinct ids, one profile per user, one request per
  requester and target) are kept by every method.
- **Dynamic query builders.** Each list route grows its WHERE clause with
  `AND col = $n` while it pushes a parameter. `Sql.Numbered` states that
  the placeholders are exactly `$1..$k` in push order, with `k` the number
  of parameters. Every builder keeps this, and the clause it builds holds
  of a row exactly when the route's filter predicate does.
- **SQL semantics** (`sql.dfy`): comparison with NULL and ordering
  semantics, `LIKE`/`ILIKE` with `%` and `_`, stable `ORDER BY`,
  `UPDATE … SET … WHERE`, `DELETE`, `SELECT DISTINCT`, `COUNT`.
- **JavaScript values** (`js.dfy`): a `Json` datatype with JavaScript
  truthiness, `||`, `??`, `String(v)`, `parseInt` (radix 10, and with no radix, where "0x" means hexadecimal), `trim`, `split` and
  case mapping. These are shared by all routes.
- **Pure helpers**: the RentCast client (`rentcast.dfy`), the housing route
  (`housing.dfy`), file validation and paths (`storage.dfy`), R2 object
  keys and the R2 wrappers (`cloud_storage.dfy`), the hex codec and the
  ciphertext/tag split (`encryption.dfy`), `parseLocation`
  (`housing_page.dfy`), `stripHtmlTags` and the resource filter
  (`banking_list.dfy`).
- **Small policies and state machines**: the JWT middleware (`auth.dfy`),
  the error handler (`error_handler.dfy`), the NextAuth callbacks
  (`auth_config.dfy`), the checklist toggle set (`checklist.dfy`), and the
  migration runner (`migrate.dfy`). The runner applies the `.sql` files in
  sorted order, each once.

The database driver, `fetch`, the S3 client, JWT verification, Web Crypto,
the clock and random ids are parameters. Each call to one of them is an
input of the member that makes it.

The forum router as written keeps a single `upvotes` counter. It has no
vote ledger, locking, soft delete, pagination or notifications. The model
follows the code, not a richer design.

## Model

| member | source | states |
|---|---|---|
| Auth.BearerToken | apps/api/src/middleware/auth.ts:19-20 | a token, when there is one, is a non-empty word without spaces taken from a header that contains a space |
| Auth.TokenIsSecondWord | apps/api/src/middleware/auth.ts:19-20 | for any first word (the scheme is never checked), the token is the second space-separated word of the header |
| Auth.NoSecondWord | apps/api/src/middleware/auth.ts:20-22 | a one-word header, or one with nothing right after its first space, carries no token |
| Auth.AuthRequest.AuthenticateToken | apps/api/src/middleware/auth.ts:17-43 | 401 with req.user untouched when there is no token; 403 with req.user untouched when verification fails; otherwise req.user is {id: sub, email, name} and next is called; next is called exactly when the token verifies |
| Auth.AuthRequest.OptionalAuth | apps/api/src/middleware/auth.ts:57-75 | next is always called; req.user is set from the payload only when a token is present and verifies, and is left as it was otherwise |
| ErrorHandler.HandleError | apps/api/src/middleware/errorHandler.ts:16-34 | the body holds only status, message and (possibly) stack |
| ErrorHandler.HandleErrorDefaults | apps/api/src/middleware/errorHandler.ts:16-33 | the status code is err.statusCode or 500 when it is absent or 0, and is never falsy; the body status is err.status or 'error'; the message is err.message or 'Internal server error'; the stack is in the body exactly in development with a stack |
| ErrorHandler.StackHiddenOutsideDevelopment | apps/api/src/middleware/errorHandler.ts:33 | outside development the answer does not depend on the stack |
| Migrate.SqlOnly | packages/database/src/migrate.ts:37-38 | a name is kept exactly when it is in the directory listing and ends in `.sql` |
| Migrate.MigrationFilesSorted | packages/database/src/migrate.ts:37-39 | the files to run are exactly the directory's `.sql` files, in strictly increasing order |
| Migrate.Pending | packages/database/src/migrate.ts:44-53 | the files a run would execute are exactly the listed files not yet recorded |
| Migrate.RunSkips | packages/database/src/migrate.ts:45-53 | a file already recorded is skipped and not executed |
| Migrate.RunFails | packages/database/src/migrate.ts:55-64 | a file whose SQL throws ends the run with that error, and nothing after it runs |
| Migrate.RunRecords | packages/database/src/migrate.ts:55-57 | any other file is executed, recorded, and the loop goes on with it recorded |
| Migrate.RunAvoidsFailing | packages/database/src/migrate.ts:44-64 | a run records no failing file, and when it stops it stops at a failing one |
| Migrate.RunSucceeds | packages/database/src/migrate.ts:44-59 | on distinct files, a run without error executes every pending file, in order |
| Migrate.RunStops | packages/database/src/migrate.ts:44-64 | on distinct files, a run that fails executes a prefix of the pending files followed by the failing file, so no later file runs |
| Migrate.RunOnce | packages/database/src/migrate.ts:45-57 | a run records no file twice and no file that was recorded before |
| Migrate.PendingSorted | packages/database/src/migrate.ts:39-44 | the pending files of a sorted listing are in increasing order |
| Migrate.RunSorted | packages/database/src/migrate.ts:37-59 | the files a run executes are in increasing order, and each is a `.sql` file of the directory that was not recorded before |
| Migrate.RunCompletes | packages/database/src/migrate.ts:44-61 | after a run without error every `.sql` file of the directory is recorded, and a second run executes nothing |
| Migrate.Migrator.RunMigrations | packages/database/src/migrate.ts:22-64 | the loop: the migrations table and the executed SQL each grow by exactly the files of the reference run, in order, and the error returned is the reference run's failing file |
| Encryption.ByteHex | apps/web/lib/encryption-client.ts:161 | a byte is written as exactly two lower-case hex digits |
| Encryption.ToHex | apps/web/lib/encryption-client.ts:159-163 | the output has 2·n characters, all lower-case hex digits |
| Encryption.ToHexAt | apps/web/lib/encryption-client.ts:160-162 | byte i is written, zero-padded, at positions 2i and 2i+1 |
| Js.HexDigits | apps/web/lib/encryption-client.ts:170 | parseInt(…, 16) reads the longest prefix of hex digits |
| Js.ParseIntAutoHex | apps/api/src/routes/roommates.ts:221 | parseInt with no radix reads "0x" followed by hex digits as that hexadecimal number, negated after a '-' |
| Js.ParseIntAutoBarePrefix | apps/api/src/routes/roommates.ts:221 | a bare "0x" is NaN with no radix, while radix 10 would read 0 |
| Js.ParseIntAutoRoundTrip | apps/api/src/utils/storage.ts:6 | parseInt with no radix reads the decimal form of any integer back as that integer |
| Encryption.Chunks | apps/web/lib/encryption-client.ts:170 | `match(/.{1,2}/g)` finds no chunk exactly when every character is a line terminator |
| Encryption.HexToBytes | apps/web/lib/encryption-client.ts:168-171 | decoding throws exactly when `match` finds nothing, and otherwise gives one byte per chunk |
| Encryption.EmptyHexThrows | apps/web/lib/encryption-client.ts:168-171 | hexToUint8Array("") throws, because `match` returns null |
| Encryption.ChunksOfHex | apps/web/lib/encryption-client.ts:170 | on hex digits the chunks are the consecutive pairs, with a single last digit when the length is odd |
| Encryption.ParseHexChunk | apps/web/lib/encryption-client.ts:170 | parseInt of one or two hex digits is their value, which is below 256 |
| Encryption.HexPairDecodes | apps/web/lib/encryption-client.ts:168-171 | byte i of decoded hex digits is 16·(digit 2i) + (digit 2i+1) |
| Encryption.HexLastDecodes | apps/web/lib/encryption-client.ts:168-171 | the last digit of an odd-length hex string becomes a byte of its own |
| Encryption.HexRoundTrip | apps/web/lib/encryption-client.ts:159-172 | hexToUint8Array(uint8ArrayToHex(a)) == a for every non-empty byte array |
| Encryption.ByteHexDecodes | apps/web/lib/encryption-client.ts:161-170 | the two digits written for a byte read back as that byte |
| Encryption.SplitTagShape | apps/web/lib/encryption-client.ts:93-95 | cipher output of at least 16 bytes splits into all but its last 16 bytes (data) and those 16 bytes (tag) |
| Encryption.SplitThenJoin | apps/web/lib/encryption-client.ts:93-136 | data followed by tag is the cipher output, whatever its length |
| Encryption.JoinTag | apps/web/lib/encryption-client.ts:134-136 | the fresh array filled by the two `set` calls holds the data followed by the tag |
| Encryption.EncryptedName | apps/web/lib/encryption-client.ts:98-102 | the encrypted file's name is the original name followed by ".encrypted" |
| Encryption.EncryptFile | apps/web/lib/encryption-client.ts:39-113 | a key hex that `match` rejects makes encryptFile throw "Failed to encrypt file"; a result exists only when the key decodes and encryption succeeds |
| Encryption.EncryptKeepsOutput | apps/web/lib/encryption-client.ts:82-109 | the returned data followed by the tag is the whole cipher output, the IV is the one passed in, the name ends in ".encrypted", and the tag is the last 16 bytes |
| Encryption.DecryptFile | apps/web/lib/encryption-client.ts:124-153 | a key hex that `match` rejects throws; otherwise decryption is handed the data followed by the tag, and its failure becomes "Failed to decrypt file. Invalid key or corrupted data." |
| Encryption.DecryptGetsCipherOutput | apps/web/lib/encryption-client.ts:93-147 | decrypting what encryptFile returned hands AES-GCM exactly the output encryption produced |
| HousingPage.BlankLocation | apps/web/app/housing/page.tsx:42-44 | empty or blank input has neither a city nor a state |
| HousingPage.CommaLocation | apps/web/app/housing/page.tsx:45-47 | with a comma, the city is the trimmed text before the first comma and the state the trimmed text up to the next comma; later parts are dropped |
| HousingPage.NoCommaLocation | apps/web/app/housing/page.tsx:49-52 | without a comma, exactly two characters are an upper-cased state with no city, and any other text is the city with no state |
| HousingPage.LocationTrimmed | apps/web/app/housing/page.tsx:42-53 | the city and the state never start or end with white space |
| HousingPage.SetIf | apps/web/app/housing/page.tsx:75-78 | `if (v) params.set(k, v)` adds the key exactly when the value is not empty |
| HousingPage.ListingParamsPresent | apps/web/app/housing/page.tsx:73-78 | fetchListings sends city, state, minPrice and maxPrice, once each and in that order, exactly when their values are not empty |
| Checklist.Ids | apps/web/components/banking/required-documents-checklist.tsx:188-239 | the ids a checkbox is wired to are exactly the listed documents' ids |
| Checklist.RequiredOf | apps/web/components/banking/required-documents-checklist.tsx:96 | the filter keeps exactly the required documents |
| Checklist.CountChecked | apps/web/components/banking/required-documents-checklist.tsx:97 | the count of checked items is at most the list's length |
| Checklist.AllPrimaryRequired | apps/web/components/banking/required-documents-checklist.tsx:24-99 | every primary document is required, so allRequired is the five primary documents and there are eight items in all |
| Checklist.RequiredCheckedBound | apps/web/components/banking/required-documents-checklist.tsx:96-97 | requiredChecked is at most 5 |
| Checklist.CountAll | apps/web/components/banking/required-documents-checklist.tsx:97 | all of a list's items are counted exactly when each of their ids is checked |
| Checklist.CompleteWhenRequiredChecked | apps/web/components/banking/required-documents-checklist.tsx:134-248 | the badge reads "Complete" and the completion message shows exactly when the passport, I-20, DS-2019, visa and I-94 are all checked |
| Checklist.Toggled | apps/web/components/banking/required-documents-checklist.tsx:86-94 | the toggled id changes membership and no other id does |
| Checklist.ToggleTwice | apps/web/components/banking/required-documents-checklist.tsx:86-94 | toggling the same id twice restores the set |
| Checklist.CheckedBound | apps/web/components/banking/required-documents-checklist.tsx:98-239 | when only listed ids are checked, totalChecked is at most totalItems, which is 8 |
| Checklist.ChecklistState.constructor | apps/web/components/banking/required-documents-checklist.tsx:22 | the component starts with no id checked |
| Checklist.ChecklistState.ToggleItem | apps/web/components/banking/required-documents-checklist.tsx:86-94 | the new state is the old set with the id toggled, and every checked id stays a listed one |
| AuthConfig.Build | apps/web/auth.config.ts:12-49 | a configured provider is built from its own client id and secret, and Microsoft's tenant is MICROSOFT_TENANT_ID or "common" |
| AuthConfig.PushIfConfigured | apps/web/auth.config.ts:11-19 | one `if (ID && SECRET) providers.push(...)` block appends the provider exactly when both variables are set |
| AuthConfig.BuildProviders | apps/web/auth.config.ts:8-50 | the four blocks, run in turn, produce the providers array of the configuration |
| AuthConfig.ProvidersBuilt | apps/web/auth.config.ts:8-50 | every registered provider is built from the environment, and there is at most one per block |
| AuthConfig.ProvidersInOrder | apps/web/auth.config.ts:8-50 | blocks in increasing order register providers in increasing order |
| AuthConfig.ProvidersPresent | apps/web/auth.config.ts:11-42 | a provider kind is registered exactly when its block is there and both its variables are set |
| AuthConfig.ProvidersRegistered | apps/web/auth.config.ts:8-50 | a provider is registered exactly when both its client id and secret are set, at most once, built from those values, in the order Google, GitHub, Apple, Microsoft |
| AuthConfig.AuthorizedCases | apps/web/auth.config.ts:55-65 | a "/dashboard" path is allowed exactly for a signed-in user; a signed-in user on "/signin" is redirected to "/"; nothing else is refused |
| AuthConfig.SignIn | apps/web/auth.config.ts:66-74 | sign-in is always allowed; a user without an id gets the fresh one and an existing id is kept |
| AuthConfig.Jwt | apps/web/auth.config.ts:75-88 | token.id becomes the user's id when there is one and is kept otherwise; an account replaces the access token; the token itself is returned |
| AuthConfig.SessionId | apps/web/auth.config.ts:94 | the session's user id is the token's id, else the database user's id, else "" |
| AuthConfig.SessionCallback | apps/web/auth.config.ts:89-97 | only session.user.id changes, and only when the session has a user; the session is returned |
| BankingList.NoTagRemains | apps/web/components/banking/banking-resources-list.tsx:31 | removing tags adds no character and leaves no `<` followed by a `>` |
| BankingList.PlainTextKept | apps/web/components/banking/banking-resources-list.tsx:31 | text without a `<` has no tag to remove |
| BankingList.TagRemoved | apps/web/components/banking/banking-resources-list.tsx:31 | a `<…>` run with no `>` inside is removed whole, and the text before it is kept |
| BankingList.StripMissing | apps/web/components/banking/banking-resources-list.tsx:29 | null, undefined and "" strip to "" |
| BankingList.NoEntities | apps/web/components/banking/banking-resources-list.tsx:32-37 | text without an `&` is left alone by the entity replacements |
| BankingList.PlainTextTrimmed | apps/web/components/banking/banking-resources-list.tsx:28-39 | text with no `<` and no `&` is only trimmed |
| BankingList.EscapedTagSurvives | apps/web/components/banking/banking-resources-list.tsx:31-38 | entities are decoded after the tags are removed, so "&lt;name&gt;" comes out as the literal "<name>" |
| BankingList.AmpersandFirst | apps/web/components/banking/banking-resources-list.tsx:33-38 | `&amp;` is decoded before `&lt;`, so "&amp;lt;" becomes "<" |
| BankingList.FilterResources | apps/web/components/banking/banking-resources-list.tsx:58-74 | a resource is kept exactly when it is in the list, its category matches (or "All" is selected), and the search is empty or occurs, ignoring case, in its title, stripped summary, stripped content or a tag |
| BankingList.FilterAppend | apps/web/components/banking/banking-resources-list.tsx:59-73 | filtering a list in two pieces filters each piece in place |
| BankingList.FilterSubsequence | apps/web/components/banking/banking-resources-list.tsx:59-73 | the kept resources are the list with some left out, the rest in their order |
| BankingList.FilterNothing | apps/web/components/banking/banking-resources-list.tsx:61-66 | with "All" and an empty search every resource is kept |
| BankingList.FilterIdempotent | apps/web/components/banking/banking-resources-list.tsx:59-73 | filtering again with the same choice changes nothing |
| BankingList.SearchIgnoresCase | apps/web/components/banking/banking-resources-list.tsx:64-70 | the search text's case does not change which resources are kept |
| BankingList.TitleMatch | apps/web/components/banking/banking-resources-list.tsx:67 | a title containing the search text as typed matches |
| Listings.BuildListQuery | apps/api/src/routes/listings.ts:10-38 | the WHERE clause is numbered $1, $2, … in order, and a row satisfies it exactly when it has the requested status (default 'active'), the given city and state, and a price within the given inclusive bounds |
| Listings.NewListingDefaults | apps/api/src/routes/listings.ts:113-125 | a created listing is 'active', with [] for omitted amenities and images |
| Listings.NewListingNulls | apps/api/src/routes/listings.ts:114-120 | landlord_id, description, city, state and zip_code are null exactly when the body leaves them falsy |
| Listings.NewListingListed | apps/api/src/routes/listings.ts:10-124 | a created listing shows in the list with no filter |
| Listings.PresentFields | apps/api/src/routes/listings.ts:165-171 | the fields written are exactly the whitelisted ones that are not undefined in the body |
| Listings.BuildSetList | apps/api/src/routes/listings.ts:161-171 | the k-th SET clause writes the k-th present field from $k, its value is that field's body value, and paramCount ends one past the last |
| Listings.PatchRow | apps/api/src/routes/listings.ts:148-181 | the SET list applied to a stored row replaces exactly the present whitelisted fields and keeps every other column, the id included |
| Listings.UpdateStatement | apps/api/src/routes/listings.ts:180-183 | with the id as the last parameter, the UPDATE touches only the row with that id, patches it, and keeps the table's ids unique |
| Listings.IdNotAllowed | apps/api/src/routes/listings.ts:148-159 | the id is not among the writable fields |
| Listings.ListingsApi.List | apps/api/src/routes/listings.ts:8-47 | the reply holds exactly the stored rows that match the filters, newest first |
| Listings.ListingsApi.Get | apps/api/src/routes/listings.ts:58-74 | 404 when no listing has the id, otherwise that listing |
| Listings.ListingsApi.Create | apps/api/src/routes/listings.ts:85-131 | 400 and no change without a truthy title, address and price; otherwise the new row is appended and returned with 201 |
| Listings.ListingsApi.Update | apps/api/src/routes/listings.ts:142-195 | 400 when no whitelisted field is present, 404 when the id is unknown, otherwise only that row changes, patched, and is returned |
| Listings.ListingsApi.Delete | apps/api/src/routes/listings.ts:206-222 | 404 and no change when the id is unknown, otherwise exactly that row is removed |
| Sql.AndWhere | apps/api/src/routes/banking.ts:12-36 | appending `AND <condition>` with its values pushed keeps the placeholders numbered $1…$n in order and adds exactly that condition to the filter |
| Sql.AndFilterIf | apps/api/src/routes/listings.ts:16-38 | `if (v) { paramCount++; query += ' AND col op $' + paramCount; params.push(v) }` adds the filter exactly when v is present, with paramCount equal to the number of parameters |
| Sql.AndSearchIf | apps/api/src/routes/forum.ts:22-30 | the search step binds the pattern twice, as $n and $(n+1), and keeps a row exactly when its title or its content matches it |
| Sql.ILikeContains | apps/api/src/routes/forum.ts:23-28 | ILIKE '%term%' holds exactly when the lower-cased text contains the lower-cased term, for a term without LIKE metacharacters |
| Sql.QuerySpec | apps/api/src/routes/listings.ts:40-42 | SELECT … WHERE … ORDER BY returns exactly the matching rows, none more often than stored, in the requested order |
| Sql.DeleteById | apps/api/src/routes/listings.ts:210-217 | DELETE … WHERE id = $1 removes nothing exactly when no row has the id, and otherwise removes exactly that row and keeps the ids unique |
| Sql.AppendFresh | apps/api/src/routes/listings.ts:107-126 | an INSERT with the next id keeps the ids distinct and below the next id |
| Forum.BuildPostQuery | apps/api/src/routes/forum.ts:10-30 | the clause starts from `WHERE 1=1` with no parameter, is numbered in order, binds the search pattern twice, and keeps a post exactly when the category matches when given and the search pattern matches its title or content when given |
| Forum.SearchIsSubstring | apps/api/src/routes/forum.ts:22-29 | a search without LIKE metacharacters finds the posts whose title or content contains it, ignoring case |
| Forum.AddCommentCounts | apps/api/src/routes/forum.ts:36-48 | each listed post, in order, gets a comment_count equal to the number of comments whose post_id is its id |
| Forum.NewRowDefaults | apps/api/src/routes/forum.ts:111-149 | a falsy user_id or parent_id is stored as null, the texts as sent, and a new post has 0 upvotes |
| Forum.PlusOne | apps/api/src/routes/forum.ts:170 | `upvotes + 1` adds one to a number, and NULL stays NULL |
| Forum.UpvoteStatement | apps/api/src/routes/forum.ts:169-172 | the upvote by id changes only the post with that id, and nothing when there is none |
| Forum.UpvoteAddsOne | apps/api/src/routes/forum.ts:170 | an upvote adds exactly one to a numeric counter and changes no other column |
| Forum.ForumApi.ListPosts | apps/api/src/routes/forum.ts:8-53 | the reply holds exactly the matching posts, newest first, each with its comment count |
| Forum.ForumApi.GetPost | apps/api/src/routes/forum.ts:64-89 | 404 when no post has the id; otherwise the post with exactly its comments, oldest first |
| Forum.ForumApi.CreatePost | apps/api/src/routes/forum.ts:100-121 | 400 and no change without a truthy category, title and content; otherwise the new post is appended and returned with 201 |
| Forum.ForumApi.CreateComment | apps/api/src/routes/forum.ts:132-154 | 400 and no change without truthy content; otherwise the new comment is appended and returned with 201 |
| Forum.ForumApi.Upvote | apps/api/src/routes/forum.ts:165-184 | 404 and no change when the id is unknown; otherwise only that post's upvotes change, and it is returned |
| Banking.BuildResourceQuery | apps/api/src/routes/banking.ts:10-36 | the clause starts from `published = true`, is numbered in order, and keeps a resource exactly when it is published, matches the category and the type when given, and matches the search pattern in its title or content when given |
| Banking.SlugWhereMeaning | apps/api/src/routes/banking.ts:62-65 | `slug = $1 AND published = true` holds exactly for a published resource with that slug |
| Banking.Categories | apps/api/src/routes/banking.ts:90-96 | the categories are strictly increasing (distinct and ordered) and are exactly the categories of published resources |
| Banking.StrArray | apps/api/src/routes/banking.ts:96 | the reply lists the category strings, one per row, in order |
| Banking.NewResourceDefaults | apps/api/src/routes/banking.ts:110-155 | a created resource is published unless the body says otherwise, has [] for missing tags, keeps each required field as sent, and stores an optional text as null exactly when it is falsy |
| Banking.NewResourceKeys | apps/api/src/routes/banking.ts:133-139 | the new row has the table's id and the body's slug |
| Banking.SlugClash | apps/api/src/routes/banking.ts:162-166 | a lookup by slug finds a row exactly when the UNIQUE slug constraint would reject the insert |
| Banking.InsertResourceKeepsValid | apps/api/src/routes/banking.ts:133-155 | inserting a resource with a fresh slug keeps ids and slugs distinct |
| Banking.BankingApi.ListResources | apps/api/src/routes/banking.ts:8-45 | the reply holds exactly the matching resources, newest first |
| Banking.BankingApi.GetBySlug | apps/api/src/routes/banking.ts:58-77 | 404 when no published resource has the slug, otherwise one that has it |
| Banking.BankingApi.ListCategories | apps/api/src/routes/banking.ts:88-97 | the reply is the sorted distinct categories of published resources |
| Banking.BankingApi.CreateResource | apps/api/src/routes/banking.ts:108-167 | 400 without a truthy title, slug, content, category and resource_type; 409 when the slug is taken; otherwise the row is appended and returned with 201, and slugs stay unique |
| Documents.BuildDocumentQuery | apps/api/src/routes/documents.ts:14-30 | the clause starts from `WHERE 1=1` with no parameter, is numbered in order, and keeps a document exactly when its user_id and document_type match those given |
| Documents.ExpiringDaysDefault | apps/api/src/routes/documents.ts:52 | the window is 30 days when days is absent, not a number or 0, and otherwise the number parseInt reads without a radix (decimal, or hexadecimal after a "0x" prefix) |
| Documents.ExpiringDaysHex | apps/api/src/routes/documents.ts:52 | days="0x10" gives a 16-day window, as radix-less parseInt reads it |
| Documents.ExpiringWhereMeaning | apps/api/src/routes/documents.ts:53-63 | a document is listed exactly when it has an expiration date between today and today + days, both included, and the one parameter is $1 |
| Documents.NewDocumentDefaults | apps/api/src/routes/documents.ts:112-129 | an uploaded document is never marked encrypted, and user_id, expiration_date and metadata are null exactly when the body leaves them falsy |
| Documents.NewDocumentPath | apps/api/src/routes/documents.ts:109-122 | the stored file_path starts with "documents/" and ends with the upload's extension |
| Documents.DocumentsApi.List | apps/api/src/routes/documents.ts:12-39 | the reply holds exactly the matching documents, newest first |
| Documents.DocumentsApi.ExpiringSoon | apps/api/src/routes/documents.ts:50-68 | the reply holds exactly the documents expiring within the window of ExpiringDays (radix-less parseInt, 30 by default), soonest first |
| Documents.DocumentsApi.Upload | apps/api/src/routes/documents.ts:79-134 | a Multer error gives 400 with its message (or "File validation failed"); then 400 without a file, 400 without a document type; otherwise the row is appended and returned with 201 |
| Documents.DocumentsApi.Download | apps/api/src/routes/documents.ts:145-168 | 404 for an unknown id, 404 when the file is not on disk, otherwise the stored file under the document's file_name |
| Documents.DocumentsApi.Get | apps/api/src/routes/documents.ts:179-195 | 404 when no document has the id, otherwise that document |
| Documents.DocumentsApi.Delete | apps/api/src/routes/documents.ts:206-231 | 404 and no change for an unknown id; otherwise exactly that row is removed and its file_path is handed to deleteFile |
| Storage.DefaultConfig | apps/api/src/utils/storage.ts:5-7 | with no environment overrides the root is "./storage/uploads", the limit 10485760 bytes, and the types JPEG, PNG, WebP and PDF |
| Storage.DefaultMaxParsed | apps/api/src/utils/storage.ts:6 | radix-less parseInt of the default "10485760" is 10485760 |
| Storage.DefaultTypesSplit | apps/api/src/utils/storage.ts:7 | the default type list splits into its four MIME types |
| Storage.ValidateFile | apps/api/src/utils/storage.ts:61-77 | a file is valid exactly when it is not over the limit and its type is allowed; the size is checked first, and an error is given exactly when the file is invalid |
| Storage.DefaultValidation | apps/api/src/utils/storage.ts:5-77 | with the defaults a file is accepted exactly when it has at most 10485760 bytes and is a JPEG, PNG, WebP or PDF, and one too large reports its size |
| Storage.DefaultSizeMessage | apps/api/src/utils/storage.ts:65 | the default size error reads "File size exceeds maximum allowed size of 10MB" |
| Storage.Extname | apps/api/src/utils/storage.ts:35 | the extension is a suffix of the name, empty or a '.' with no other '.', and empty when the name has no '.' |
| Storage.SavedPath | apps/api/src/utils/storage.ts:24-43 | the returned path ends with the upload's extension and starts with the subfolder and '/' when a subfolder is given |
| CloudStorage.R2Key | apps/api/src/utils/cloud-storage.ts:189-193 | the key starts with "documents/", the document id and '-', and ends with '.' and the extension |
| CloudStorage.ExtensionHasNoDot | apps/api/src/utils/cloud-storage.ts:191 | the extension never holds a '.' and is never empty |
| CloudStorage.ExtensionAfterLastDot | apps/api/src/utils/cloud-storage.ts:191 | for a name with a '.' before its end, the extension is the text after the last '.' |
| CloudStorage.ExtensionWithoutDot | apps/api/src/utils/cloud-storage.ts:191 | a non-empty name without '.' is its own extension |
| CloudStorage.ExtensionDefault | apps/api/src/utils/cloud-storage.ts:191 | an empty name, or one ending in '.', gets "bin" |
| CloudStorage.UploadToR2 | apps/api/src/utils/cloud-storage.ts:19-47 | without configuration it throws the configuration error; otherwise it returns the key when the put succeeds and throws "Failed to upload file to R2" when it fails |
| CloudStorage.DownloadFromR2 | apps/api/src/utils/cloud-storage.ts:54-91 | without configuration it throws the configuration error; a body gives the chunks joined in order; a missing body gives the generic failure; NoSuchKey gives "File not found in R2" |
| CloudStorage.DownloadErrors | apps/api/src/utils/cloud-storage.ts:71-90 | "Empty response body from R2" never reaches the caller, and the only errors are the configuration one, the missing key and the generic failure |
| CloudStorage.ConcatLength | apps/api/src/utils/cloud-storage.ts:77-83 | the downloaded buffer is as long as all the chunks together |
| CloudStorage.DeleteFromR2 | apps/api/src/utils/cloud-storage.ts:97-118 | it completes exactly when R2 is configured and the delete succeeds, and otherwise throws the matching error |
| CloudStorage.FileExistsInR2 | apps/api/src/utils/cloud-storage.ts:125-149 | true exactly when R2 is configured and the HEAD request succeeds; it never throws |
| CloudStorage.ExistsUnconfigured | apps/api/src/utils/cloud-storage.ts:126-128 | without configuration the answer is false whatever the storage holds |
| CloudStorage.PresignedUrl | apps/api/src/utils/cloud-storage.ts:157-181 | without configuration it throws the configuration error; otherwise it returns the signed URL or throws "Failed to generate presigned URL" |
| RentCast.Put | apps/api/src/utils/rentcast.ts:120-131 | assigning a key keeps the record's keys distinct and sets that key's value |
| RentCast.Copied | apps/api/src/utils/rentcast.ts:120-131 | a key named by a rule is copied exactly when the rule fires, and otherwise keeps its value |
| RentCast.NotCopied | apps/api/src/utils/rentcast.ts:120-131 | a key no rule names keeps its value |
| RentCast.MinNum | apps/api/src/utils/rentcast.ts:116 | `Math.min` of a number and 500 is one of the two and at most both |
| RentCast.RentalQueryBase | apps/api/src/utils/rentcast.ts:114-118 | the rental search sends status 'Active', limit 20 and offset 0 unless given, and a numeric limit never above 500 |
| RentCast.RentalQueryCopies | apps/api/src/utils/rentcast.ts:120-131 | each filter reaches the rental query exactly when its rule fires: text filters when truthy, radius, latitude and longitude when not null or undefined (so 0 is kept) |
| RentCast.PropertyQueryCopies | apps/api/src/utils/rentcast.ts:166-177 | the property search sends limit and offset as the rental search does, and copies each filter by its rule |
| RentCast.SentParamsMeaning | apps/api/src/utils/rentcast.ts:78-84 | a pair is sent exactly when its key is an entry of the record whose value is not undefined, null or '', and the pair holds String(value) |
| RentCast.SearchParams | apps/api/src/utils/rentcast.ts:79-83 | the forEach over the entries builds exactly the sendable parameters, in entry order |
| RentCast.ErrorMessageCases | apps/api/src/utils/rentcast.ts:93-102 | the thrown message is the JSON body's truthy message, else the first 200 characters of a non-JSON body, else "RentCast API error: <status>" |
| RentCast.RentcastFetch | apps/api/src/utils/rentcast.ts:68-106 | without a key it throws before any request; otherwise it sends the base URL plus endpoint with the sendable parameters and the key, and settles to the parsed body or the error message |
| RentCast.SearchRentalListings | apps/api/src/utils/rentcast.ts:111-137 | the rental search is sent to /listings/rental/long-term with the rental query |
| RentCast.GetRentalListingById | apps/api/src/utils/rentcast.ts:142-149 | the lookup is sent to /listings/rental/long-term/ followed by the encoded id, with no parameters |
| RentCast.SearchProperties | apps/api/src/utils/rentcast.ts:154-180 | the property search is sent to /properties with the property query |
| RentCast.Settle | apps/api/src/utils/rentcast.ts:93-105 | the request settles to the parsed body exactly for an ok reply that parses, and a reply that is not ok throws the built error message |
| Housing.LimitCases | apps/api/src/routes/housing.ts:32 | the limit is never above 100; it is 20 when absent, not a number or 0, and the parsed number capped at 100 otherwise |
| Housing.OffsetCases | apps/api/src/routes/housing.ts:33 | the offset is 0 when absent or not a number, and the parsed number otherwise |
| Housing.PriceReadsBack | apps/api/src/routes/housing.ts:41-51 | the price is unset exactly when neither bound parses; it is "min-max" when both do; a lone bound reads back as that bound |
| Housing.HousingParamsValues | apps/api/src/routes/housing.ts:18-51 | the record holds the computed limit and offset, status 'Active' unless given, each text filter only when it is a non-empty string, and the price text when a bound parses |
| Housing.RequestedLimit | apps/api/src/routes/housing.ts:32-53 | the housing limit passes the client's 500 cap unchanged, so at most 100 listings are asked for |
| Housing.ErrorReply | apps/api/src/routes/housing.ts:59-75 | a message that mentions RENTCAST_API_KEY gives 503 with the fixed text, any other gives 500 with the message |
| Housing.MissingKeyIs503 | apps/api/src/routes/housing.ts:63-69 | the client's missing-key error always surfaces as 503 |
| Housing.RouteReply | apps/api/src/routes/housing.ts:53-75 | listings on success, and the catch block's reply on failure |
| Housing.Rentals | apps/api/src/routes/housing.ts:16-76 | without a key the reply is 503 and nothing is sent; otherwise RentCast gets the housing record as its rental query, and the reply follows how the request settles |
| Housing.RentalById | apps/api/src/routes/housing.ts:82-108 | without a key the reply is 503; otherwise the lookup of the encoded id is sent and the reply follows how it settles |
| Roommates.RequireAuth | apps/api/src/routes/roommates.ts:8-15 | the user id is returned exactly when it is truthy; otherwise the handler answers 401 |
| Roommates.ProfileParams | apps/api/src/routes/roommates.ts:114-140 | the 25 UPDATE parameters line up with the 25 written columns, each holding the value PUT /profile gives that column |
| Roommates.NewProfileKeys | apps/api/src/routes/roommates.ts:147-186 | a new profile has the table's fresh id and the caller's user id |
| Roommates.NewProfileWritten | apps/api/src/routes/roommates.ts:158-185 | every written column of a new profile holds the value PUT gives it |
| Roommates.NewProfileColumns | apps/api/src/routes/roommates.ts:158-185 | display_name as sent; each optional column null exactly when omitted or falsy and otherwise as sent; discoverable true unless sent |
| Roommates.WrittenProfileColumns | apps/api/src/routes/roommates.ts:85-142 | an updated profile keeps its id and user id, and its written columns obey the same rules as a new profile's |
| Roommates.ProfileUpdateStatement | apps/api/src/routes/roommates.ts:85-142 | the UPDATE keyed on `user_id = $26` finds the caller's profile and rewrites that row only, keeping one profile per user |
| Roommates.ProfileRowRewritten | apps/api/src/routes/roommates.ts:85-142 | the matched row gets the 25 SET values, every other row and column stays, and the table stays valid |
| Roommates.ProfileUpdateWhere | apps/api/src/routes/roommates.ts:112-141 | the WHERE of the profile UPDATE compares user_id with the 26th parameter, the caller |
| Roommates.ProfileUpdated | apps/api/src/routes/roommates.ts:84-145 | updating rewrites the caller's profile in place, the table stays valid, and the profile is still theirs |
| Roommates.ProfileSetsApplied | apps/api/src/routes/roommates.ts:86-111 | the SET list writes every profile column with its parameter and keeps id and user_id |
| Roommates.InsertProfileKeepsValid | apps/api/src/routes/roommates.ts:147-188 | inserting for a user without a profile keeps ids and user ids distinct, and the new row is that user's profile |
| Roommates.InsertByKey | apps/api/src/routes/roommates.ts:147-186 | appending a row with a fresh id and an unused key keeps the table valid and is found by that key |
| Roommates.KeepsEqualitiesSnoc | apps/api/src/routes/roommates.ts:238-267 | one more equality filter adds exactly its own condition |
| Roommates.BrowseBase | apps/api/src/routes/roommates.ts:214-216 | the base clause holds exactly of discoverable profiles of other users |
| Roommates.AndEqualities | apps/api/src/routes/roommates.ts:238-267 | the loop adds `AND col = $n` for each truthy filter, numbering placeholders, so a row passes exactly when it passed before and equals every truthy filter |
| Roommates.BuildBrowseQuery | apps/api/src/routes/roommates.ts:214-267 | the built clause holds of a row exactly when it satisfies BrowseMatches: discoverable, someone else's, the budget bounds (read by radix-less parseInt, so "0x10" binds 16), move-in and location bounds with NULL passing, and the equalities |
| Roommates.RequestOf | apps/api/src/routes/roommates.ts:295-298 | the conflict target of the request upsert: the pair of requester and target |
| Roommates.RequestKeyMeaning | apps/api/src/routes/roommates.ts:297 | the conflict clause holds exactly of the row with that requester and target |
| Roommates.InsertRequestKeepsValid | apps/api/src/routes/roommates.ts:294-301 | a first request for a pair keeps one request per pair, and the pair then finds the new row |
| Roommates.ReplaceRequestKeepsValid | apps/api/src/routes/roommates.ts:297-298 | rewriting a request without touching its keys keeps the table invariant |
| Roommates.AnswerableRequest | apps/api/src/routes/roommates.ts:352-362 | the request a status update may change: the one with the id, and only when the caller is its target |
| Roommates.StatusWhereMeaning | apps/api/src/routes/roommates.ts:355 | the status clause holds of a row exactly when its id matches and the caller is its target |
| Roommates.StatusFinds | apps/api/src/routes/roommates.ts:352-362 | the status UPDATE finds exactly the answerable request, and no row when there is none |
| Roommates.StatusStatement | apps/api/src/routes/roommates.ts:352-364 | the status UPDATE changes only the answerable request's status and updated_at, and nothing when there is none |
| Roommates.StatusRowUpdated | apps/api/src/routes/roommates.ts:352-358 | the matched request gets the new status and time and the table stays valid |
| Roommates.RoommatesApi.constructor | apps/api/src/routes/roommates.ts:6 | starts with no profiles and no requests, satisfying the table invariants |
| Roommates.RoommatesApi.GetProfile | apps/api/src/routes/roommates.ts:18-36 | 401 without a user; otherwise the caller's profile, or null when they have none |
| Roommates.RoommatesApi.PutProfile | apps/api/src/routes/roommates.ts:39-193 | 401 without a user and 400 without a display name, changing nothing; otherwise the caller's profile is rewritten in place (200) or appended (201), and afterwards they have one |
| Roommates.RoommatesApi.Browse | apps/api/src/routes/roommates.ts:196-278 | 401 without a user; otherwise exactly the stored profiles that BrowseMatches (budget bounds parsed by radix-less parseInt), newest update first |
| Roommates.RoommatesApi.SendRequest | apps/api/src/routes/roommates.ts:281-308 | 401 without a user and 400 without a target; otherwise an existing request for the pair gets the new message and time, or a new one is appended, and 201 carries that row |
| Roommates.RoommatesApi.ListRequests | apps/api/src/routes/roommates.ts:311-336 | 401 without a user; otherwise the requests targeting the caller and those sent by them, each newest first |
| Roommates.RoommatesApi.AnswerRequest | apps/api/src/routes/roommates.ts:339-369 | 401 without a user; 400 unless the status is 'accepted' or 'rejected'; 404 when no request with that id targets the caller; otherwise only that request's status and time change |
| Roommates.ProfileAt | apps/api/src/routes/roommates.ts:23-26 | with one profile per user, the caller's row is the one `WHERE user_id = $1` finds |
| Roommates.ResentStillFound | apps/api/src/routes/roommates.ts:297-298 | resending keeps the pair, so the pair still finds the same request |
| Surveys.NewSurvey | apps/api/src/routes/surveys.ts:77-92 | the row POST / inserts, from the body with its defaults |
| Surveys.NewSurveyDefaults | apps/api/src/routes/surveys.ts:60-92 | reward_points defaults to 0, eligibility_criteria and api_config to {}, status to 'active' only when absent, and description is null exactly when falsy; sent values are kept |
| Surveys.NewSurveyId | apps/api/src/routes/surveys.ts:77-82 | the inserted survey has the table's fresh id |
| Surveys.SurveysApi.constructor | apps/api/src/routes/surveys.ts:5 | starts with no surveys and a valid table |
| Surveys.SurveysApi.List | apps/api/src/routes/surveys.ts:8-28 | exactly the surveys whose status is the requested one ('active' when absent), newest first |
| Surveys.SurveysApi.Get | apps/api/src/routes/surveys.ts:31-55 | 404 'Survey not found' when no survey has the id, and that survey otherwise |
| Surveys.SurveysApi.Create | apps/api/src/routes/surveys.ts:58-105 | 400 without a truthy provider and title, changing nothing; otherwise the new survey is appended with a fresh id and returned with 201 |

## Left out

- Postgres errors other than the ones a route maps itself (the banking 409 on a duplicate slug) are not modelled. Each route's `catch` answers 500, and a query that cannot fail in the model never reaches it.
- Listings.ListingMatches: the price filters use `parseFloat`, which is modelled by integer parsing, because the model has no floating point.
- An ordering comparison of a column with NaN or with a non-number is false in the model. Postgres rejects a non-numeric text parameter for an integer column with an error, which the route's `catch` answers with 500; that 500 is not modelled.
- Route `:id` parameters (listings, surveys, documents, forum, roommate requests) are given to the handlers as the values Postgres compares them as: a numeric path segment such as '5' is passed as the number 5. Express hands the handler the text '5', and Postgres casts it to the integer column; that text-to-integer cast is not modelled, so a text id compared with a numeric id column never matches in the model.
- Strings are sequences of Unicode code points, not UTF-16 code units. JavaScript's `length`, `slice` and the regular expression `.` count code units, so a character outside the Basic Multilingual Plane (an emoji) counts 1 in the model and 2 in the source; this affects HousingPage.ParseLocation's length-2 test, RentCast.ErrorMessage's first 200 characters and Encryption.Chunks.
- Banking.Categories: the categories are ordered by code point (C collation). `ORDER BY category` follows the database's collation, under which (en_US, for example) "apple" sorts before "Banana".
- Column defaults of the schema beyond those the routes write are not modelled, because the schema is not part of this model.
- Dates and timestamps are day numbers. `created_at`, `updated_at` and "today" come from a `now` parameter.
- multer, the file system, `crypto.randomBytes`, the S3 client, `fetch`, JWT verification, nanoid and Web Crypto are parameters of the members that call them, not implemented.
- `toLowerCase` and `toUpperCase` map ASCII letters only. Unicode case mapping is left out.
- `Promise.all` in the forum and documents routes is modelled as sequential calls, because concurrency is out of scope.
- Checklist: the progress percentage and the labels, icons and descriptions of the items are presentation only and are left out.
- A trailing backslash in a LIKE pattern matches nothing in the model. Postgres raises an error for it.
- `ORDER BY` compares numbers (dates are day numbers). Text ordering is used only for the banking categories.
- Tables are sequences in insertion order, so a tie in `ORDER BY` keeps insertion order, as a stable sort would. Postgres leaves ties unordered.
- The roommates routes take the caller's user id as an input, because the middleware that attaches it is not part of this model.
- RentCast.GetRentalListingById: the id is given already encoded, because `encodeURIComponent` is not modelled.
- Storage.ValidateFile: the size message states the limit in whole MiB, because fractional `toFixed` output is not modelled.
- Storage.SavedPath: `path.join` normalisation of `..` and repeated separators is not modelled.
- `Math.min` is modelled on numbers only.
- Auth.AuthRequest.AuthenticateToken: the outer `catch` that answers 500 is not modelled, because token verification is a total parameter that returns no payload on failure. The same holds for the outer `catch` of optionalAuth.
- Migrate.Migrator.RunMigrations: a failing SQL file is given as a set of failing file names. The `CREATE TABLE IF NOT EXISTS` of the bookkeeping table is treated as always succeeding.
- HousingPage: the `/api/housing/search` request, `hasFilters` and the `URLSearchParams` percent-encoding are not modelled. Only the parameter list is.
- Logging (`logger`, `console`) is left out. It has no effect on replies or tables.
- Environment variables are a datatype of names with optional values. The `as string` casts in the session callback are not modelled.
- AuthConfig: provider objects are reduced to their configuration (kind, client id, secret, tenant).
- Encryption: `generateEncryptionKey` draws a random key and is not modelled beyond the hex encoding it shares with `uint8ArrayToHex`. AES-GCM itself is a parameter.
- CloudStorage.PresignedUrl: `expiresIn` is passed to the signer and not modelled further.
- apps/api/__tests__/forum.test.ts:11-16 expects 401 for an unauthenticated post. The route at apps/api/src/routes/forum.ts:100-116 performs no auth check, so no 401 is modelled.
