# shopify-variant, modelled in Dafny

This tool has two passes over a shop's product catalog.

The **harvester** (`RetrieveProducts`) pages through the product listing
endpoint. The first request carries no cursor. Every later request asks for
the products *since* the last product of the page accepted before it. The
loop stops on a transport error, a non-200 status, an empty page (a body
that does not parse counts as empty) or a page whose last identifier equals
the cursor. Every page accepted before that is kept for the snapshot.

The **merge pass** (`main`) walks over the snapshot one batch at a time.
Inside a batch, it visits every ordered pair of products `(j, z)`. When both
titles contain the family marker `"Pet Premium Jersey"` and the titles
differ, it calls `AddVariantToExisting`. That call adds `z` as a variant of
`j`, using `z`'s image and `z`'s title as the option label. The first call
whose success flag is false aborts the process.

The model replaces all I/O with input sequences:

- The listing endpoint is a finite sequence of `Response`s. Request k gets
  response k. Past the end of the sequence, every request gets a transport
  error.
- The write endpoint is a finite sequence of `WriteOutcome`s, read the same
  way. Past its end, every call is a transport failure.
- The snapshot file is the sequence of batches passed to `MergePass`.

Modules:

- `Catalog` (catalog.dfy): the product record. It keeps only the
  identifier, the title and the primary image identifier, the three fields
  the loops read.
- `Text` (catalog.dfy): substring search standing in for `strings.Contains`.
- `Harvester` (harvester.dfy):
  - `Harvest` / `HarvestFrom` is the reference definition of one run.
  - `RetrieveProducts` is the loop, written step by step and proved equal to
    `Harvest`.
  - Lemmas state what a run promises.
- `Merge` (merge.dfy):
  - `SnapshotCalls` is the reference list of every call the pairing rule
    gives rise to, in loop order.
  - `MergePass`, `MergeBatch` and `OfferVariants` are the three nested
    loops, one method per loop level.
  - `AddVariantToExisting` is the success flag of the write call.
  - Lemmas cover the pairing rule, the call count and the abort behaviour.

## Model

| member | source | states |
|---|---|---|
| `Harvester.RetrieveProducts` | main.go:155-205 | The loop's requests, accepted batches and fatal flag are exactly those of the reference run `Harvest` for the same responses. |
| `Harvester.RunShape` | main.go:164-205 | A run sends one more request than it accepts batches, and at most one request per response plus one. The first request is a plain listing with no `since_id`. The bound comes from the finite response sequence, not from the loop (see `FreshPagesAllAccepted`). |
| `Harvester.BatchesArePages` | main.go:179-198 | The k-th accepted batch is the non-empty decoded page of the k-th response, which was a 200 reply. The snapshot is a prefix of the returned pages, in order. |
| `Harvester.CursorChain` | main.go:162-198 | Each later request carries `since_id` equal to the last identifier of the batch accepted just before it. The first batch does not end at the starting cursor 0. Consecutive batches never end at the same identifier. |
| `Harvester.StopReason` | main.go:180-202 | The response after the last accepted batch is one the loop rejects under the cursor it held then. The run is fatal exactly when that response was an unreadable 200 body. |
| `Harvester.QuietEnd` | main.go:179-194 | A transport error, a non-200 status, or an empty or unparseable page ends the run there. Nothing from it on is appended, no further request is sent, and the run is not fatal. |
| `Harvester.EmptyCatalog` | main.go:191-194 | An empty or malformed first page gives an empty snapshot, one request and a normal end. |
| `Harvester.StallIsDropped` | main.go:196-202 | A page that follows an accepted page and ends at the same identifier is not appended, and the run stops there. |
| `Harvester.FirstPageEndingAtZero` | main.go:162-202 | Because the cursor starts at 0, a first page whose last product has identifier 0 is treated as a stall and dropped. |
| `Harvester.CursorNeedNotIncrease` | main.go:196-198 | Pages ending at 5, 3 and 5 are all accepted. Only inequality with the previous cursor is enforced, not increase. |
| `Harvester.FreshPagesAllAccepted` | main.go:164-205 | Any number of non-empty 200 pages, each ending at an identifier other than the end of the page before it, are all accepted, in order. The run sends one request more than there are pages and is not fatal. Only the end of the responses stops it. |
| `Harvester.AlternatingNeverStalls` | main.go:193-202 | For every n, n pages ending at 5 and 3 in turn give exactly those n batches and n + 1 requests, so an endpoint cycling between two page ends keeps the loop running. |
| `Text.ContainsIffOccurs` | main.go:297-298 | The substring search answers true exactly when the marker occurs at some position of the title. |
| `Merge.AddVariantToExisting` | main.go:218-251 | The call attempted targets `productID`, with `imageID` and `varName` in the variant body. The flag is false exactly after a request-construction, transport or body-read error, and true for every fully read response, whatever its status code. When the request cannot be built, nothing goes out, but the attempt still appears in the pass's list of calls, which is what its abort is judged on. |
| `Merge.OfferVariants` | main.go:295-305 | The inner loop for one outer product makes a prefix of that product's row of calls. Every call except possibly the last succeeded. It aborts exactly when the last call failed, and otherwise makes the whole row. |
| `Merge.MergeBatch` | main.go:293-307 | The same promise for one batch and all of its rows, in outer-index order. |
| `Merge.MergePass` | main.go:291-308 | The calls made are a prefix of `SnapshotCalls`. All succeeded except the last one when the pass aborted. An aborted pass made at least one call, and a pass that did not abort made every matching call. |
| `Merge.SnapshotCallsMembers` | main.go:291-300 | A call is in the list exactly when it is `(Products[j].ID, Products[z].Image.ID, Products[z].Title)` for an ordered pair of one and the same batch whose titles both contain the marker and differ. |
| `Merge.SameTitlesNeverPaired` | main.go:297-299 | A batch whose products all share one title makes no call, so no product is paired with itself or with a namesake. |
| `Merge.BatchCallCount` | main.go:293-300 | A batch whose k family members have pairwise distinct titles makes exactly k·(k−1) calls, whatever other products it holds. |
| `Merge.CallsMade` | main.go:300-303 | The number of calls a pass makes lies between the starting point and the number planned. When it is short of the plan, the last call made is the one that failed. |
| `Merge.ReplayIsDetermined` | main.go:300-303 | `MergePass`'s promise fixes the result. The calls made are the first `CallsMade` planned calls, and the pass aborts exactly when some planned call fails. |
| `Merge.ThirdOfFiveFails` | main.go:300-303 | With five planned calls and a failure on the third, exactly the first three are made and the pass aborts. |
| `Merge.JerseyExample` | main.go:291-300 | A batch holding a red jersey, a blue jersey and an unrelated product makes exactly two calls: red gets blue, then blue gets red. |
| `Merge.BatchesAreNotFlattened` | main.go:291-295 | Two jerseys make no call when they come in two different batches, and two calls when they share a batch. |

## Behaviour that differs from what one might expect

- The merge pass does not flatten the snapshot. It pairs products only
  within one batch (one page of the harvest), so two family members on
  different pages are never linked. See `BatchesAreNotFlattened`.
- The harvester does not check that page identifiers increase. It only
  checks that a page's last identifier differs from the cursor. Its batches
  can therefore end at decreasing identifiers, and the same cursor value can
  be used twice. See `CursorNeedNotIncrease`.
- Termination of the harvest in the model comes from the finite response
  sequence, which turns into transport errors past its end. The Go loop
  itself has no bound. It stops only on a failure, an empty page, or a page
  ending at the previous cursor. An endpoint that cycles among two or more
  page ends (5, 3, 5, 3, …) keeps it running forever. See
  `FreshPagesAllAccepted` and `AlternatingNeverStalls`. Termination of the
  real program rests on the API's `since_id` semantics (pages ending at
  strictly increasing identifiers), which are outside the model.
- The cursor starts at Go's zero value 0, not at "no cursor". See
  `FirstPageEndingAtZero`.
- Rerunning the merge pass on the same snapshot makes the same calls again.
  `SnapshotCalls` depends only on the snapshot, and nothing records calls
  already made.

## Left out

- HTTP transport: the client, headers, response-body closing, and the
  request URL text. Responses and write outcomes are inputs. Only the choice
  between `ListFirst` and `ListSince(lastId)` is kept of the URL.
- Request-construction failure in the harvester (`log.Fatal`, main.go:167-169
  and 173-175). It depends on how the configured shop name parses as a URL,
  which the model does not represent, so every listing request is assumed
  to be built. For the write call, the same failure is the
  `RequestNotBuilt` outcome.
- JSON decoding. A listing body is either a decoded page, a body the decoder
  rejects (left as an empty page, since the error is ignored), or an
  unreadable body. A body whose decoding fails part-way and leaves a
  partially filled page is not modelled. The record schema (main.go:16-135)
  is reduced to the product ID, the title and `Image.ID`. A product without
  an image carries image identifier 0, as the decoder leaves it.
- Credential loading (`GetCredentials`, main.go:137-152): configuration-file
  I/O through a foreign library.
- Writing the snapshot in append mode (main.go:206-216) and reading it back
  in `main` (main.go:284-288): file I/O. `MergePass` takes the decoded
  snapshot as its input. A file that does not decode leaves no batches,
  because `main` ignores the decoding error, and that is the empty
  snapshot.
- Process exit. `log.Fatal` on an unreadable listing body becomes
  `Run.fatal`, and nothing is persisted then. `log.Fatalln` after a failed
  write becomes `aborted`. Exit codes are not represented.
- `time.Sleep` (main.go:199, main.go:306) and all printing: timing and
  output only.
- `AddImageToExisting` (main.go:253-281): nothing calls it.
- Integer width: Go's 64-bit `int` identifiers are modelled as unbounded
  `int`. They are only compared for equality, so wrap-around cannot arise.
- `Text.ContainsIffOccurs`: Go's `strings.Contains` compares bytes. The model
  compares characters. The marker is ASCII, so the answers agree.
