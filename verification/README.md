# SoulCertify core, modelled in Dafny

SoulCertify is a Next.js frontend and API for on-chain academic certificates.
Students request a certificate, either by talking to an AI assistant or through
an administrator, and an administrator issues it on the blockchain. This project
models the logic of that application as pure Dafny functions and proves
properties about them:

- `RequestStore` covers the certificate-request API route. POST validates a
  submission and appends a pending record to the request file. GET serves the
  whole list. A file that is missing or does not parse reads as empty, and a
  file holding `null` makes GET fail.
- `Extraction` and `Venice` cover the wrapper around the language-model
  service. They locate a JSON payload inside a free-form reply, using the
  leftmost lazy match of three regular expressions tried in turn, and strip the
  code-fence markers. They also model the four calls (analyse, chat, extract,
  skills): the error each one throws, and the fallback each one returns.
- `Assistant` covers the chat component. Each handler is a transition from the
  component state to the next state, together with the service calls made, in
  order. The handlers are send, analyse, submit and the edit buttons. The
  component renders the analysis as a message and offers Analyze or Submit
  depending on the state.
- `Roles`, `AdminRequests`, `Certificates` and `IssueForm` cover the
  administrator's views:
  - the case-insensitive admin check;
  - the request-review table and the issue and reject handlers;
  - the certificate card, list and page;
  - the manual issue form, including its skills parser and its reset.
- `Gateway` covers the rewrite from a Pinata IPFS URI to a gateway URL.
- `Upload` covers the document-upload route.
- `Navigation` covers how the header marks the active menu link.
- `Json`, `Text` and `Wrappers` hold the JavaScript values and string
  primitives the rest relies on.

The model replaces everything outside the program with parameters:

- the reply of each completion call (`Completion`);
- `JSON.parse` and the string conversion of `BigInt`, both as functions
  passed in;
- clock readings, random suffixes and the current year;
- the success of each transaction or HTTP call;
- the content of the request file.

## Model

| member | source | states |
|---|---|---|
| RequestStore.NewRecord | packages/nextjs/app/api/certificate-requests/route.ts:65-70 | The record has the body's keys plus id, status and createdAt. Status is always "pending" and createdAt is the timestamp. A client-supplied id overrides the generated one. Every other body field is copied. |
| RequestStore.Submit | packages/nextjs/app/api/certificate-requests/route.ts:49-75 | A submission is accepted iff all six fields are truthy. A non-null body missing a field gives 400. A refused submission leaves the store unchanged. An accepted one appends exactly the new record and reports the `req_<time>_<suffix>` id. |
| RequestStore.Post | packages/nextjs/app/api/certificate-requests/route.ts:42-91 | Success iff the body is JSON with all required fields, the stored content is an array, and writing the file back succeeds. On success the file becomes the old array plus the new record. Every failure leaves the file untouched. 400 iff the body is a non-null value missing a field. |
| RequestStore.UnreadableFileIsEmpty | packages/nextjs/app/api/certificate-requests/route.ts:23-32 | A missing or unparsable request file is served like an empty array: status 200 with an empty list. A file holding `null` is not. |
| RequestStore.GetRequests | packages/nextjs/app/api/certificate-requests/route.ts:95-106 | GET fails with 500 iff the file holds `null`, because reading its `length` throws. Otherwise it serves the file's content as read, which is `[]` for a missing or unparsable file. |
| RequestStore.GetAfterPost | packages/nextjs/app/api/certificate-requests/route.ts:65-100 | After a successful POST, both GETs succeed. The later GET returns the earlier records in order, followed by one more record that is pending and carries the POST's timestamp. |
| RequestStore.SubmitAllAppendOnly | packages/nextjs/app/api/certificate-requests/route.ts:73-75 | Over any series of submissions the store only grows at the end. Earlier records stay a prefix, and the length grows by exactly the number of valid submissions. |
| Extraction.FindLazy | packages/nextjs/app/AI/veniceService.ts:89-91 | The scanning search returns the match the regular expression `open[\s\S]*?close` finds: leftmost start, shortest body. It returns None exactly when no match exists. |
| Extraction.MatchText | packages/nextjs/app/AI/veniceService.ts:89-91 | `match[0]` is present iff the pattern matches. It starts with the opening marker and ends with the closing one, and it is the text of the leftmost lazy match. |
| Extraction.Locate | packages/nextjs/app/AI/veniceService.ts:89-91 | The "```json" fence is tried first, then the plain fence, then the bracket pattern. Each is used only when all earlier ones fail to match. |
| Extraction.StripFencesRemovesAll | packages/nextjs/app/AI/veniceService.ts:97 | The global replace leaves no "```" anywhere in its output. |
| Extraction.StripFencesIdentity | packages/nextjs/app/AI/veniceService.ts:97 | Text containing no "```" passes through the replace unchanged. |
| Extraction.StripFencesIdempotent | packages/nextjs/app/AI/veniceService.ts:97 | Stripping twice is the same as stripping once. |
| Extraction.JsonFenceStripsToBody | packages/nextjs/app/AI/veniceService.ts:89-97 | A whole "```json" block whose body has no backticks strips to the body. Only the newline that preceded the closing fence remains after it. |
| Venice.JsonCandidate | packages/nextjs/app/AI/veniceService.ts:89-97 | A candidate for `JSON.parse` exists iff one of the three patterns matches. The candidate is the located match with the fence markers stripped, so it contains no "```". |
| Venice.FencedReplyCandidate | packages/nextjs/app/AI/veniceService.ts:89-97 | A reply that is exactly one "```json" block with a backtick-free body hands `JSON.parse` that body plus the newline before the closing fence. This holds whatever the fallback pattern is. |
| Venice.FallbackAnalysis | packages/nextjs/app/AI/veniceService.ts:99-121 | The fallback analysis gives every score as 50 and does not recommend approval. It reports the raw reply as the consistency issue. |
| Venice.Analyze | packages/nextjs/app/AI/veniceService.ts:32-130 | A failed call or empty content throws the fixed error message. Otherwise the result is the parse of the candidate text. When there is no candidate, or it does not parse, the result is the fallback analysis. |
| Venice.ExtractInfo | packages/nextjs/app/AI/veniceService.ts:186-250 | A failed call or empty content throws the fixed error. Otherwise the result is the parse of the candidate text. When there is no candidate, or it does not parse, the result is `null`. |
| Venice.CommaPieces | packages/nextjs/app/AI/veniceService.ts:299 | There is one piece per comma plus one, and each piece is the trim of the corresponding split piece. |
| Venice.CommaPiecesTrimmed | packages/nextjs/app/AI/veniceService.ts:299 | No piece of the comma fallback starts or ends with whitespace. |
| Venice.Skills | packages/nextjs/app/AI/veniceService.ts:255-312 | The call never throws. A failed call or empty content gives the three fixed skills. Otherwise the result is the parse of the candidate text. When there is no candidate, or it does not parse, the result is the trimmed comma pieces of the content. |
| Venice.ChatRequest | packages/nextjs/app/AI/veniceService.ts:154-161 | The system message with the prompt for the connected address comes first. It is followed by the caller's conversation, unchanged and in order. |
| Venice.ChatReply | packages/nextjs/app/AI/veniceService.ts:172-180 | It throws the chat error iff the call failed. Empty content becomes the apology. The answer returned is never empty. |
| Venice.FencedReplyParsed | packages/nextjs/app/AI/veniceService.ts:89-130 | For a reply that is one "```json" block, analyse, extract and skills each return the parse of the block's body. When the body does not parse, each returns its own fallback. |
| Assistant.Greet | packages/nextjs/app/certificates/_components/VeniceService.tsx:82-113 | With a connected wallet and an empty chat, the greeting becomes the only entry of both lists. Otherwise nothing changes. The input, the held request and the analysis are never touched. |
| Assistant.Hold | packages/nextjs/app/certificates/_components/VeniceService.tsx:147-185 | A request is held iff extraction returned a value with the five required fields truthy. The held request carries the connected address and keeps the other extracted fields, and it has no keys besides those fields, `skills` and `studentAddress`. Skills that were missing or empty are replaced by the recommendation, and only then is the recommendation call made. A suggestion for both lists follows iff the recommendation is an array. Its text names the degree and the major and joins the recommended skills. Otherwise the queued updates throw at the next render, after the request has been stored. |
| Assistant.Absorb | packages/nextjs/app/certificates/_components/VeniceService.tsx:169-184 | Applying the extraction step grows both lists by the same amount, zero or one, and keeps their existing entries. The entry appended is the suggestion, from the assistant, in both lists. The input and the analysis are unchanged. It installs the extracted request when there is one. It marks the render as failed iff the step's updates throw. |
| Assistant.BlankInputIgnored | packages/nextjs/app/certificates/_components/VeniceService.tsx:115-134 | A send does nothing iff the input is all whitespace. Otherwise the input is cleared and the first call is the chat with the user's turn appended. |
| Assistant.SendAppendsTurns | packages/nextjs/app/certificates/_components/VeniceService.tsx:115-201 | A send appends the user turn and then the answer to both lists, and earlier entries are untouched. At most one suggestion follows, added to both lists. A failed chat adds the error message to the displayed list only. |
| Assistant.SendCallSequence | packages/nextjs/app/certificates/_components/VeniceService.tsx:134-165 | A send that is not ignored makes one to three calls. The chat call comes first and only once. The extraction call, with the conversation that was sent, can only be second. The skills call can only be third. |
| Assistant.ExtractionOnlyWhenLongEnough | packages/nextjs/app/certificates/_components/VeniceService.tsx:147-150 | Extraction is called iff the chat answered and the sent conversation has at least four entries. |
| Assistant.SendSetsOnlyExtractedInfo | packages/nextjs/app/certificates/_components/VeniceService.tsx:147-185 | A send changes the held request only by installing the extracted one, and only after a successful chat on a long enough conversation. |
| Assistant.SendPreservesInvariant | packages/nextjs/app/certificates/_components/VeniceService.tsx:153-184 | After a send, any held request still has its required fields truthy and a string address. |
| Assistant.HandlersPreserveInvariant | packages/nextjs/app/certificates/_components/VeniceService.tsx:203-303 | The greeting, analyse, submit and edit handlers also preserve that invariant. |
| Assistant.AnalyzeInfo | packages/nextjs/app/certificates/_components/VeniceService.tsx:203-255 | Without a request nothing happens. With one, it makes exactly one analyse call. A readable analysis is stored, and its message is appended to both lists. Otherwise the trouble notice goes to the displayed list only. A result that was returned is stored even when reading it throws. The held request and the input are never changed. |
| Assistant.ReadList | packages/nextjs/app/certificates/_components/VeniceService.tsx:215-225 | A list field is shown when it is an array. It is skipped when `.length > 0` is false. Reading it throws for `undefined` or `null`, and for a non-empty string or an object of positive `length`, neither of which has `join`. |
| Assistant.AnalysisSegmentsShape | packages/nextjs/app/certificates/_components/VeniceService.tsx:215-225 | Each optional line of the analysis message appears iff its list is non-empty. |
| Assistant.AnalysisSegmentsFrame | packages/nextjs/app/certificates/_components/VeniceService.tsx:212-233 | The message opens with the score and its overall assessment comes just before the last part. It ends with exactly one of the two prompts, and no prompt appears earlier. |
| Assistant.AnalysisMessageEnding | packages/nextjs/app/certificates/_components/VeniceService.tsx:229-233 | The rendered message ends with the invitation to submit iff approval is recommended. |
| Assistant.AnalyzeOutcome | packages/nextjs/app/certificates/_components/VeniceService.tsx:203-255 | After a readable analysis, the chat ends with the analysis message and offers Submit, not Analyze. That message invites submission iff approval is recommended. After any other outcome the last message is the trouble notice. |
| Assistant.SubmitInfo | packages/nextjs/app/certificates/_components/VeniceService.tsx:257-303 | Submitting either keeps the held request or clears it. It never installs a different one. |
| Assistant.SubmitOutcome | packages/nextjs/app/certificates/_components/VeniceService.tsx:263-299 | The request is posted once, with `aiGenerated: true` and its other fields unchanged. Success clears the request and its analysis, and adds the "Great news" confirmation to both the displayed messages and the conversation. Failure keeps the request and its analysis, and adds the apology to the displayed messages only. The input is unchanged either way. |
| Assistant.PostedInfoAccepted | packages/nextjs/app/certificates/_components/VeniceService.tsx:263-272 | The store's validation accepts the body the assistant posts, given that a wallet address was filled in. |
| Assistant.FallbackAnalysisReadable | packages/nextjs/app/AI/veniceService.ts:99-121 | The component can read the fallback analysis. It does not recommend approval, and the raw reply is its only consistency issue. |
| Assistant.OffersExclusive | packages/nextjs/app/certificates/_components/VeniceService.tsx:360-381 | The Analyze and Submit button groups are never offered together. |
| Roles.IsAdmin | packages/nextjs/app/admin/certificate-requests/page.tsx:54-60 | A wallet is the admin iff both addresses are present and non-empty, and they agree letter by letter up to ASCII case. |
| Roles.IsAdminIgnoresCase | packages/nextjs/app/certificates/page.tsx:30-36 | Lower-casing either address does not change the result, and swapping the two addresses does not either. |
| AdminRequests.PendingCount | packages/nextjs/app/admin/certificate-requests/page.tsx:180 | The count is at most the total. It equals the total iff every request is pending, and it is zero iff none is. |
| AdminRequests.PendingCountAppend | packages/nextjs/app/admin/certificate-requests/page.tsx:180 | The pending count of two concatenated lists is the sum of their counts. |
| AdminRequests.RowActions | packages/nextjs/app/admin/certificate-requests/page.tsx:295-320 | A row offers actions iff its request is pending, and then it offers exactly Issue and Reject. |
| AdminRequests.ShortId | packages/nextjs/app/admin/certificate-requests/page.tsx:245 | The id column shows the first ten characters of the id, or the whole id if shorter, followed by "...". |
| AdminRequests.Render | packages/nextjs/app/admin/certificate-requests/page.tsx:130-325 | Non-admins see only the denial. Admins see the spinner while loading, then the empty notice iff there are no requests. Otherwise they see a table with the total, the pending count and one row per request. Each row's badge is the request's status badge, its actions follow its status, and a string id is shown shortened. |
| AdminRequests.RowBadge | packages/nextjs/app/admin/certificate-requests/page.tsx:274-289 | The badge is Pending iff the status is "pending" and Approved iff it is "approved". Any other status shows as Rejected. |
| AdminRequests.SkillsOf | packages/nextjs/app/admin/certificate-requests/page.tsx:100 | Stored skills are used when they are an array; anything else gives an empty list. |
| AdminRequests.HandleIssue | packages/nextjs/app/admin/certificate-requests/page.tsx:95-128 | A year that `BigInt` rejects means nothing is sent. Otherwise the transaction goes first, with the request's fields in contract order and an empty document URI. The approve post happens iff the transaction succeeded. The refresh happens iff that post also got a response. Each effect happens at most once: one, two or three in all. |
| AdminRequests.ApproveFollowsIssue | packages/nextjs/app/admin/certificate-requests/page.tsx:103-123 | The approve post can only come second, right after the transaction. The refresh can only come third, right after the approve post. |
| AdminRequests.HandleReject | packages/nextjs/app/admin/certificate-requests/page.tsx:310-315 | The rejection is posted once, first. A refresh follows iff the post got a response, and nothing else happens. |
| Certificates.FromTuple | packages/nextjs/app/certificates/_components/CertificateList.tsx:66-77 | The record built from a reply carries the id it was fetched under, and tuple positions 0 to 8 become, in order, the student name, university, graduation year, degree, major, skills, document URI, approval flag and revocation flag. |
| Certificates.TupleRoundTrip | packages/nextjs/app/certificates/_components/CertificateList.tsx:66-77 | Positions 0 to 8 map one-to-one onto the nine fields. Record to tuple and tuple to record are mutually inverse. |
| Certificates.ExactlyOneBadge | packages/nextjs/app/certificates/_components/CertificateCard.tsx:84-101 | A card shows exactly one badge: Revoked over Approved over Pending. |
| Certificates.Buttons | packages/nextjs/app/certificates/_components/CertificateCard.tsx:146-160 | Approve is offered iff the viewer is not the admin and the certificate is pending. Revoke is offered iff the viewer is the admin and it is approved. There is never more than one button. |
| Certificates.DocumentLink | packages/nextjs/app/certificates/_components/CertificateCard.tsx:132-136 | There is no link iff the URI is empty. An `ipfs://` URI goes through the public gateway with the scheme removed. Any other URI is linked as it is. |
| Certificates.Approve | packages/nextjs/app/certificates/_components/CertificateCard.tsx:41-56 | The approve transaction is sent once, first. A reload follows iff it succeeded, and nothing else happens. |
| Certificates.Revoke | packages/nextjs/app/certificates/_components/CertificateCard.tsx:58-77 | Nothing happens iff the user does not confirm. The revoke transaction is sent iff they confirm. The reload happens iff they confirm and the transaction succeeded. A confirmed revoke sends the transaction once, first, and then at most the reload. |
| Certificates.OneTo | packages/nextjs/app/certificates/_components/CertificateList.tsx:52 | The admin's id list is 1, 2, …, N. |
| Certificates.FetchPlan | packages/nextjs/app/certificates/_components/CertificateList.tsx:41-56 | The list stops at once iff a non-admin has no ids. An admin with a positive total fetches 1..N. Otherwise the student's ids are fetched, or none. |
| Certificates.AdminIdsIncreasing | packages/nextjs/app/certificates/_components/CertificateList.tsx:50-52 | An admin's ids are strictly increasing and cover 1..N without gaps. |
| Certificates.RenderPage | packages/nextjs/app/certificates/page.tsx:39-132 | A wallet that is not connected sees only the connect prompt. The issue tab, the requests link and the issue form appear iff the viewer is the admin. A non-admin asking for the issue tab gets the student list. The certificate list is told whether the viewer is the admin. |
| IssueForm.Initial | packages/nextjs/app/certificates/_components/IssueCertificateForm.tsx:10-19 | Every text field starts empty and the year starts as the current one. |
| IssueForm.Edit | packages/nextjs/app/certificates/_components/IssueCertificateForm.tsx:25-28 | An edit sets the named field to the typed text, and no other field changes. |
| IssueForm.ChooseFile | packages/nextjs/app/certificates/_components/IssueCertificateForm.tsx:31-35 | The first chosen file replaces the held one. Choosing nothing keeps the held file. |
| IssueForm.KeptIndices | packages/nextjs/app/certificates/_components/IssueCertificateForm.tsx:93-96 | The kept pieces are exactly those that do not trim to empty, listed in increasing order. |
| IssueForm.ParseSkills | packages/nextjs/app/certificates/_components/IssueCertificateForm.tsx:93-96 | The skills are the trimmed non-empty comma pieces, in order. There are at most as many as commas plus one. None is empty, and none starts or ends with whitespace. |
| IssueForm.ParseSkillsKeepsPieces | packages/nextjs/app/certificates/_components/IssueCertificateForm.tsx:93-96 | Two pieces that are non-empty after trimming both appear among the skills, in their original order. |
| IssueForm.MockUploadUri | packages/nextjs/app/certificates/_components/IssueCertificateForm.tsx:46-47 | The mock URI is `ipfs://Qm` followed by the two random fragments. |
| IssueForm.Upload | packages/nextjs/app/certificates/_components/IssueCertificateForm.tsx:38-54 | Without a file the result is empty. With one it is a mock `ipfs://Qm` URI. |
| IssueForm.DocumentUri | packages/nextjs/app/certificates/_components/IssueCertificateForm.tsx:87-90 | An attached file's uploaded URI takes precedence over the typed URI. |
| IssueForm.Submit | packages/nextjs/app/certificates/_components/IssueCertificateForm.tsx:77-119 | An invalid form sends nothing and changes nothing. A transaction is sent iff the form is valid and `BigInt` accepts the year. It carries the fields in order, the parsed skills and the chosen URI. The form and file are reset iff the transaction succeeded. |
| Gateway.PinataGatewayUrl | packages/nextjs/services/ipfsService.ts:72-81 | A URI not on the dedicated Pinata host is returned unchanged. A URI on it becomes the Pinata gateway followed by what came after `ipfs://`. |
| Gateway.PinataGatewayIdempotent | packages/nextjs/services/ipfsService.ts:72-81 | Rewriting a rewritten URI changes nothing. |
| Upload.Sanitize | packages/nextjs/app/api/upload-document/route.ts:31 | The sanitised name has the same length. Letters, digits, '.' and '-' are kept, and every other character becomes '_'. |
| Upload.SanitizeIdempotent | packages/nextjs/app/api/upload-document/route.ts:31 | Sanitising a sanitised name changes nothing. |
| Upload.StoredNameSplits | packages/nextjs/app/api/upload-document/route.ts:31 | The first '_' of a stored name ends the timestamp. The name splits back into the upload time and the sanitised original name. |
| Upload.Post | packages/nextjs/app/api/upload-document/route.ts:12-58 | A missing or empty entry gives 400 and writes nothing. Success happens iff a file entry was written. The reply names the stored file, and the mock URI ends with that name. |
| Navigation.IsActive | packages/nextjs/components/Header.tsx:40 | No link is active before the pathname is known. |
| Navigation.ActiveOnOwnAndNestedPages | packages/nextjs/components/Header.tsx:40 | A link is active on its own page and on every page below it. |
| Navigation.ActiveOnlyUnderHref | packages/nextjs/components/Header.tsx:40 | A path that does not start with the link's href never activates it. |
| Navigation.SiblingNotActive | packages/nextjs/components/Header.tsx:40 | A path that extends the link's href by a character other than '/' does not activate the link. |
| Navigation.HomeOnlyAtRoot | packages/nextjs/components/Header.tsx:17-40 | Home is active iff the path is "/" or starts with "//". So "/certificates" does not activate it. |
| Navigation.AtMostOneActive | packages/nextjs/components/Header.tsx:17-40 | No path activates both menu links. |

## Left out

- The request file is modelled by its parsed content, and writing it back by a success flag (`writeOk`). An uploaded document's write is likewise modelled by a success flag. Concurrent POSTs that read and write the file at the same time, losing one update, are not modelled. The data directory and the uploads directory are created before use, and a failure there is not modelled.
- JSON numbers are integers. Fractional numbers are not modelled, nor is `Number`/`BigInt` precision beyond 2^53.
- `toLowerCase` is modelled on ASCII letters only.
- Strings are sequences of characters, not UTF-16 code units. So `trim`, the regular expressions and the file-name sanitiser treat a surrogate pair as one character.
- The prompts of the analyse, extract and skills calls, the model settings and the HTTP client are not modelled. Each call is represented by the reply it got.
- Loading flags, notifications, console logging and scrolling are not modelled. That covers `isTyping`, `isAnalyzing`, `isSubmitting`, `uploading`, the toast messages and auto-scroll.
- The greeting's `catch` branch (VeniceService.tsx:99-105) cannot be reached, because setting state does not throw. It is not modelled.
- The certificate list's per-id contract reads (CertificateList.tsx:58-64) call a React hook inside a loop. The model takes each reply as given (`FromTuple`) and covers which ids are requested.
- The on-chain certificate contract, the approve/reject request routes, the certificate-detail pages, the data-path route, the deployment script and the Uniswap price helper are not part of this model.
- The admin page's request fetch is modelled by the list it obtained and the loading flag. Its error notification and the data-path debug text are not modelled.
- The creation date is rendered with the browser's locale formatting, which is not modelled.
- Assistant.ReadList: JavaScript compares a `length` property that is a string or an array with 0 after converting it to a number. The model treats such a property as not positive.
- Assistant.Hold: the info panel (VeniceService.tsx:438-446) renders the held fields as React children. A field holding a plain object, such as skills returned as `{"a": 1}`, makes that render throw. The model does not set `renderFailed` for it, because it does not model what the panel renders.
- Assistant.State: `renderFailed` records that a queued message updater throws at the next render. In the app the component is then gone. The model keeps applying handlers to the state, which the app could no longer call.
- AdminRequests.RowOf: an id that is not a string is rendered through `String`. The page would instead throw on `substring`.
- Upload.Post: the error text of a 500 reply is not modelled. A request body that is not a multipart form is also a 500 and is not modelled separately.
- Upload.Post: the `filePath` field of the reply, an absolute server path, is not modelled.
- RequestStore.Post: the error text of a 500 reply is not modelled, only the status.
- Navigation.IsActive: its own contract states only the case where the pathname is unknown. The matching rule is stated by the lemmas that follow it: the link's own page, nested pages, a path off the href's prefix, and sibling paths.
- Assistant.SubmitInfo: its own contract states only that no other request is installed. The call, the state change and the chat entries of a submit with a held request are stated by `Assistant.SubmitOutcome`.
