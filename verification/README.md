# API-HUB: a verified model of its stateful kernels

API-HUB moves supplier catalogs into storefronts. Most of it is I/O, but a handful of kernels keep state under
rules that their comments promise. This project models those kernels in Dafny and proves the promises for all
inputs and all runs, or says exactly when they hold.

`dafny verify dfyconfig.toml` checks the whole project.

## What is modelled

* **The catalog database** (`Schema.dfy`). One class holds the tables as maps keyed by the columns of their unique
  constraints; a foreign key is the key of the row it points to. NULL skus never conflict, so a variant without a sku
  is keyed by a serial number within its product. A statement that violates a unique constraint fails the request,
  and a failed request is rolled back to where its transaction (or savepoint) began.
* **Product upserts** (`OptionUpsert.dfy`, `Persistence.dfy`, `ProductIngestion.dfy`). `persist_product` writes the
  spine, details, sizes, variants, tiers, images and options statement by statement. `PersistenceLaws.dfy` proves that
  it reads and writes its own product's rows only, hence that batches of distinct products are independent of their
  order; `PersistenceFixpoint.dfy` says what a repetition changes.
* **The handoff export** (`Exporter.dfy`), which closes the circle: what is exported of a product reads back what was
  ingested.
* **The category tree** (`Categories.dfy`, `CategoryTree.dfy`). Two-pass ingest against an order-free reading of a
  batch, and the recursive descendant query as PostgreSQL evaluates it, working table by working table.
* **Derived options** (`Normalize.dfy`, `OptionCollapse.dfy`) and **bulk save** (`BulkSave.dfy`). `CatalogRuns.dfy`
  mixes category, product and pricing ingests with derivations and bulk saves, and proves that referential integrity
  holds over every run.
* **The login limiter** (`LoginLimiter.dfy`), refined against a limiter that never forgets.
* **Concurrent protocols as labelled steps**: first-admin bootstrap (`Bootstrap.dfy`), the worker pool
  (`WorkerPool.dfy`), the dead-letter list and the retry chain of a push job (`PushWorker.dfy`), and the alerting
  checker (`Alerting.dfy`).
* **Auto-pagination** (`Pagination.dfy`) against an unchanging list that the server slices.

Times are integers or exact reals, strings are ASCII, prices are exact reals, and what the environment decides
(clock readings, query orders without ORDER BY, HTTP replies, scheduling) is a parameter or a nondeterministic choice.

## Where the code and its promises part

* `persist_product` is called idempotent. One call is, up to the stamp, if and only if the item is refused, or every
  variant has a sku and the call inserted no once-listed image at sort order zero past the first place
  (`SecondRunChangesNothingIff`, with an item in `OneRunIsNotEnough`): such an image gets its list position as sort
  order on the second run (`ImagesSecondRun`), and every variant without a sku adds a row on every run
  (`EachRunAddsSkuless`). From the second run on the rows with a sku are settled (`ThirdRun`).
* An option's enabled flag survives a re-sync (`OptionLookup`), its attributes' flags do not: a stored attribute keeps
  its state if and only if its option is not upserted or the state was that of a new one (`AttributeStateKeptIff`), so
  an attribute that a bulk save enabled is disabled by the next upsert (`UpsertDisablesWhatBulkSaveEnabled`,
  `RedIsDisabledAgain`).
* The descendant query is a UNION ALL and the ingest does not look for cycles. The query ends if and only if following
  the parent links up from the root never returns to it (`QueryEndsIff`), and a batch of two entries can make it run
  forever (`CyclicBatchNeverEnds`). An ingest leaves a table on which every query ends if and only if the rows it is
  going to leave admit a rank (`IngestLeavesEndingIff`).
* The option derivation is called an idempotent full replace. The letter case of a derived title is that of whichever
  row the query returns first (`DisplayDependsOnOrder`), so titles are independent of the row order if and only if no
  two values of an axis differ in letter case only (`DisplayFixedIff`), and deriving a second time changes nothing,
  whatever orders the two queries return, under exactly the same condition (`DeriveAgainIff`). Everything else about
  the stored options does not depend on the order (`DeriveCanonical`).
* The push finalizer's list of terminal statuses lacks `rejected` and `canceled`, which both push-request endpoints
  report as terminal (`backend/modules/integrations/routes.py:188` and `:716`). A job whose tries all fail leaves a
  terminal row alone if and only if it is neither, or the database does not answer (`FinalRowKeptIff`); and a job that
  finds its row in either status does fail all its tries (`UnclaimedJob`). No backend code writes either status; they
  are named by those two endpoints, the vocabulary in `backend/modules/push_log/models.py:19`, a docstring
  (`backend/modules/ops_push/preflight.py:1008`) and the frontend (`frontend/src/lib/push-status.ts`).
* A push that raises after it was claimed stays in `processing`, so its retries never execute it again, and neither the
  dead letter nor the row tells the first cause (`FirstCauseIsLost`).
* A failed row is alerted once, not once per failure: the retry endpoint puts a failed push back to `accepted` without
  clearing the flag (`backend/modules/integrations/routes.py:777`). A row that fails again and stays failed for the
  checks it is due is alerted if and only if it had never been flagged (`FailsAgainAlertedIff`, with a run in
  `RetriedPushIsSilent`).
* Registration is documented as closed forever after the first user. Under Read Committed an admin request may act
  after its author was deleted: two vg_admins, the only users, who delete each other at the same time leave no user and
  reopen it (`CrossDeletion`). There is an admin at every moment of a run if and only if no deletion by an author
  already gone hits the last one (`AdminStaysIff`). It never does when authors are still there at their statements
  (`AuthorsKeepAdmins`), and with atomic requests registration is closed forever indeed (`ClosedForever`).
* The customer fetch-all raises its page-limit error from 99 full pages and one record on, even when page 100 completes
  the list; the order-details loop truncates silently at 100 pages. A reply with neither data nor errors, or with a null
  list, ends either loop without an error: exactly when the customers loop so returns a partial list is
  `CustomersOutcomeIff`, and exactly when the order-details loop loses products is `DetailsOutcomeIff`.
* The FAQ loop has no page limit: exactly when it ends is `FaqsEndIff`. With an honest total, a null list in the place of
  any page but the first makes it run until an error comes, if one does (`NullListHangs`).
* With no workers and a non-empty queue, `queue.join()` is never released (`JoinReachableIff`).

## Model

| member | source | states |
|---|---|---|
| LoginLimiter.EmailLimiter.EnforceEmailLoginLimit | backend/limiter.py:47-80 | one login attempt, with its sweep, pruning, verdict and Retry-After, and nothing at all when limiting is disabled |
| LoginLimiter.EmailLimiter.Sweep | backend/limiter.py:67-69 | the sweep deletes exactly the keys whose attempts have all aged out, and only past the threshold |
| LoginLimiter.EmailLimiter.Prune | backend/limiter.py:70-72 | the key exists afterwards and its queue has lost exactly its aged-out front |
| LoginLimiter.StepOnKey | backend/limiter.py:67-80 | whatever else a call sweeps, each key's queue stays its full history minus aged-out attempts, and decides as the full history does |
| LoginLimiter.RunMatchesIdeal | backend/limiter.py:57-80 | on every serialised run with a non-decreasing clock the verdicts, including the advertised delay, equal those of a limiter that never forgets |
| LoginLimiter.KeyIdentifies | backend/limiter.py:60 | two emails share a key exactly when, but for blanks at the ends, they agree up to letter case |
| LoginLimiter.AtMostFivePerWindow | backend/limiter.py:33-40 | no closed window of 900 seconds holds more than five accepted attempts of one email, however it is written |
| LoginLimiter.RejectedIff | backend/limiter.py:57-80 | over every run a call is rejected exactly when five attempts of its email were accepted in the 900 seconds before it |
| LoginLimiter.RunHealthy | backend/limiter.py:60-80 | after every run each stored queue is sorted, non-empty, at most five long and not in the future |
| LoginLimiter.StorageBound | backend/limiter.py:63-70 | after a call at most 10,001 keys are stored or every stored key has an attempt inside the window; up to 10,000 keys nothing is swept |
| LoginLimiter.LockoutIsExact | backend/limiter.py:71-80 | the advertised delay is between 0 and 900, the header at least 1, every call within the delay is rejected, the first one a second later is admitted, and rejected calls never lengthen it |
| OptionUpsert.InsertAttributes | backend/modules/catalog/ingest.py:171-188 | blank titles are skipped, the rest inserted, and the request fails exactly when two titles agree |
| OptionUpsert.UpsertOptions | backend/modules/catalog/ingest.py:117-188 | options are upserted in order, each option's attributes replaced |
| Persistence.ReplaceSizes | backend/modules/catalog/persistence.py:114-124 | a non-empty list replaces the product's sizes and fails exactly on a repeated width and height |
| Persistence.UpsertTiers | backend/modules/catalog/persistence.py:158-171 | one variant's tiers are deleted and the given ones upserted in order |
| Persistence.UpsertVariants | backend/modules/catalog/persistence.py:126-171 | variants are upserted by sku, those without one appended, each with its tiers |
| Persistence.UpsertImages | backend/modules/catalog/persistence.py:173-212 | images are upserted by url with their two sort-order rules, or one front image is seeded |
| Persistence.PersistProduct | backend/modules/catalog/persistence.py:31-219 | the whole upsert; it fails exactly when a size or an attribute title is repeated |
| PersistenceLaws.PersistIsLocal | backend/modules/catalog/persistence.py:31-219 | the call leaves every other product's rows alone, and what it leaves for its own does not depend on them or, but for the stamp, on the clock |
| PersistenceLaws.PersistCommutes | backend/modules/catalog/persistence.py:31-219 | two different products can be persisted in either order: equal stores if the clock reads the same, equal but for the stamps if not |
| PersistenceLaws.BatchAt | backend/modules/catalog/ingest.py:288-294 | in a batch of distinct SKUs every product ends as if persisted alone |
| PersistenceLaws.BatchOrderIrrelevant | backend/modules/catalog/ingest.py:288-294 | every order of such a batch leaves the same store, whatever the clock reads |
| PersistenceLaws.PersistKeepsConsistency | backend/modules/catalog/models.py:36-245 | every foreign key stays satisfied, that of a product to its category included, sku-less serials stay fresh, and one product at most is added |
| PersistenceFixpoint.ProductLookup | backend/modules/catalog/persistence.py:40-71 | after a batch a product has the columns of its last entry; whether it is archived and when its image was fetched stay as stored |
| PersistenceFixpoint.DetailsLookup | backend/modules/catalog/persistence.py:74-112 | its apparel or print details are those of the last entry that gives any |
| PersistenceFixpoint.TierLookup | backend/modules/catalog/persistence.py:153-171 | each tier key ends with its last entry in the list |
| PersistenceFixpoint.VariantLookup | backend/modules/catalog/persistence.py:126-171 | a written variant has every column and exactly the tiers of its last entry, no stale tier left; an unlisted one is unchanged |
| PersistenceFixpoint.SkulessRow | backend/modules/catalog/persistence.py:126-171 | the row that a variant without a sku adds has every column and exactly the tiers of its entry |
| PersistenceFixpoint.SizeLookup | backend/modules/catalog/persistence.py:114-124 | an empty list leaves the sizes alone; any other leaves exactly the listed ones, column by column |
| PersistenceFixpoint.OtherVariants | backend/modules/catalog/persistence.py:126-171 | other products' variants and tiers, and sku-less rows of lists without null skus, are unchanged |
| PersistenceFixpoint.ImageLookup | backend/modules/catalog/persistence.py:173-198 | a listed image ends as its last entry says, keeping its mirror columns; an unlisted one is unchanged |
| PersistenceFixpoint.SeededImage | backend/modules/catalog/persistence.py:200-212 | without a list the product image url seeds one front image at order zero, unless it is there |
| PersistenceFixpoint.ImagesSecondRun | backend/modules/catalog/persistence.py:173-212 | exactly which images a second run changes, and how |
| PersistenceFixpoint.OptionLookup | backend/modules/catalog/ingest.py:124-188 | an upserted option has its last entry's columns and attributes; status, enabled and overridden sort survive, or come from the first entry of a new option |
| PersistenceFixpoint.AttributeLookup | backend/modules/catalog/ingest.py:159-188 | an upserted option has one attribute for each non-blank title of its last entry, column by column |
| PersistenceFixpoint.AttributeStateIsReset | backend/modules/catalog/ingest.py:159-188 | after an upsert of an option all its attributes are disabled and carry no override |
| PersistenceFixpoint.AttributeStateKeptIff | backend/modules/catalog/ingest.py:159-188 | exactly when a stored attribute keeps its state through an upsert |
| CatalogRuns.UpsertDisablesWhatBulkSaveEnabled | backend/modules/catalog/ingest.py:159-188 | an attribute that a bulk save enabled is disabled by the next upsert of its option |
| CatalogRuns.RedIsDisabledAgain | backend/modules/catalog/ingest.py:159-188 | one such attribute |
| PersistenceFixpoint.SecondRunChangesNothingIff | backend/modules/catalog/persistence.py:34-37 | one request is idempotent, up to the stamp, exactly when the item is refused, or every variant has a sku and no once-listed image was inserted at sort order zero past the first place |
| PersistenceFixpoint.OneRunIsNotEnough | backend/modules/catalog/persistence.py:173-198 | a new product with two unnumbered images is changed by the second call |
| PersistenceFixpoint.SecondRun | backend/modules/catalog/persistence.py:31-219 | a second run changes only the stamp and the images on the rows with a sku, and nothing else at all when every variant has one |
| PersistenceFixpoint.ThirdRun | backend/modules/catalog/persistence.py:31-219 | the store is at a fixpoint from the second run on, up to the stamp |
| PersistenceFixpoint.EachRunAddsSkuless | backend/modules/catalog/persistence.py:126-151 | with n variants lacking a sku every run adds exactly n rows, each with the columns of its entry, and keeps the earlier ones |
| ProductIngestion.IngestProducts | backend/modules/catalog/ingest.py:264-299 | 404, 409, all of the batch with its sync job, or nothing |
| ProductIngestion.ProductAfterIngest | backend/modules/catalog/ingest.py:278-294 | after an ingest a product has the columns of its last item and is linked to the category its item names exactly if the supplier has one with that external id |
| ProductIngestion.InsertTiers | backend/modules/catalog/ingest.py:392-404 | tiers are replaced by plain inserts, failing exactly on a repeated price type and minimum |
| ProductIngestion.IngestPricing | backend/modules/catalog/ingest.py:357-409 | items are applied in order to matched variants; the reported count is the batch length; a failure leaves nothing |
| ProductIngestion.PricingIsBulkMerge | backend/modules/catalog/ingest.py:375-404 | each matched variant ends with its last item's base price and the tiers of its last item that has any; all else is unchanged |
| Categories.IngestCategories | backend/modules/catalog/ingest.py:200-252 | 404, 409, or both passes over the batch with its sync job |
| Categories.IngestRow | backend/modules/catalog/ingest.py:213-247 | the two passes leave each row as an order-free reading says, children before parents included |
| Categories.IngestOrderIrrelevant | backend/modules/catalog/ingest.py:205-209 | every order of a batch with distinct ids leaves the same table |
| Categories.IngestIdempotent | backend/modules/catalog/ingest.py:3-5 | re-ingesting a batch changes nothing |
| Categories.IngestKeepsRank | backend/modules/catalog/ingest.py:227-247 | if stored and batch links admit a rank together, so do the links afterwards |
| Categories.IngestKeepsClosed | backend/modules/catalog/ingest.py:227-247 | parents are always rows of the table |
| CategoryTree.WorkingIsGeneration | backend/modules/catalog/routes.py:38-46 | round n holds, each once, the categories whose n-th ancestor is the root |
| CategoryTree.QueryEndsIff | backend/modules/catalog/routes.py:36-48 | the query ends exactly when the root is missing or is not its own ancestor, within as many rounds as there are categories |
| CategoryTree.QueryIsClosure | backend/modules/catalog/routes.py:36-48 | it then returns the reflexive-transitive closure below the root, each category once |
| CategoryTree.BelowIsChain | backend/modules/catalog/routes.py:36-48 | a category is below the root exactly when a chain of parent links leads from it to the root |
| CategoryTree.QueriesEndOverRuns | backend/modules/catalog/ingest.py:227-247 | over any run of ingests whose links jointly admit a rank every query ends |
| CategoryTree.AllQueriesEndIff | backend/modules/catalog/routes.py:36-48 | all descendant queries end exactly when the parent links admit a rank |
| CategoryTree.IngestLeavesEndingIff | backend/modules/catalog/ingest.py:213-247 | an ingest leaves a table on which every query ends exactly when the rows it is going to leave admit a rank |
| CategoryTree.CyclicBatchNeverEnds | backend/modules/catalog/ingest.py:236-247 | two entries naming each other as parents make the query run forever |
| Normalize.NormIs | backend/modules/catalog/option_collapse.py:39-41 | the normal form is the words of the text with one blank between them |
| Normalize.NormIdempotent | backend/modules/catalog/option_collapse.py:39-41 | normalising twice is normalising once |
| Normalize.SlugIs | backend/modules/catalog/option_collapse.py:44-46 | the slug is the runs of letters and digits of the case-folded normal form with one dash between them, or x |
| Normalize.CaseInsensitiveKeys | backend/modules/catalog/option_collapse.py:44-51 | slug and sort key of a normalised title do not depend on its letter case |
| Normalize.KeysSeparate | backend/modules/catalog/option_collapse.py:49-51 | titles that differ beyond letter case have different sort keys |
| OptionCollapse.DistinctTitlesOf | backend/modules/catalog/option_collapse.py:54-71 | the dictionary loop and the sort |
| OptionCollapse.TitlesAre | backend/modules/catalog/option_collapse.py:54-71 | the titles are strictly sorted by the axis's key, distinct even up to case, never blank, and cover exactly the non-blank values |
| OptionCollapse.SizesFollowChart | backend/modules/catalog/option_collapse.py:22-27 | sizes come in the order of the chart, those not on it last, titles of equal standing by their upper case |
| OptionCollapse.ColorsByName | backend/modules/catalog/option_collapse.py:69-70 | colors come in the order of their lower case |
| OptionCollapse.TitlesCanonical | backend/modules/catalog/option_collapse.py:54-71 | the case-folded titles and their slugs come out in the same order for every row order |
| OptionCollapse.DisplayFixedIff | backend/modules/catalog/option_collapse.py:54-71 | the titles are the same for every order of the rows exactly when no two values differ in letter case only |
| OptionCollapse.DisplayDependsOnOrder | backend/modules/catalog/option_collapse.py:66-68 | two rows in either order give either display form |
| OptionCollapse.PayloadInsertable | backend/modules/catalog/option_collapse.py:82-97 | a derivation can never hit the unique constraint on titles |
| OptionCollapse.DeriveOptions | backend/modules/catalog/option_collapse.py:99-143 | both options rebuilt, empty axes removed, counts reported, variants untouched |
| OptionCollapse.DerivedAxis | backend/modules/catalog/option_collapse.py:116-143 | per axis: title, place and as many attributes as reported, each with its slug, in order; the option's own state kept, or enabled if new; an emptied axis removed |
| OptionCollapse.DerivedElsewhere | backend/modules/catalog/option_collapse.py:3-5 | every other option keeps its row and attributes |
| OptionCollapse.DeriveAgainIff | backend/modules/catalog/option_collapse.py:3-5 | deriving a second time changes nothing, whatever orders the two queries return the rows in, exactly when no two variants differ on an axis in letter case only |
| OptionCollapse.DeriveIdempotent | backend/modules/catalog/option_collapse.py:3-5 | deriving again from the same titles changes nothing |
| OptionCollapse.DeriveCanonical | backend/modules/catalog/option_collapse.py:99-143 | whatever order the query returns its rows in, the options table is the same and the attribute rows agree title by title: only the letter case of derived titles can differ |
| BulkSave.SaveAttributes | backend/modules/catalog/routes.py:570-593 | known titles are updated, new ones inserted, failing exactly when a new title is listed twice |
| BulkSave.SaveEntry | backend/modules/catalog/routes.py:549-597 | one entry is saved whole or leaves no trace |
| BulkSave.BulkSaveOptions | backend/modules/catalog/routes.py:534-602 | the store, the saved count and the errors in order |
| BulkSave.NothingDeleted | backend/modules/catalog/routes.py:548-593 | no option or attribute is deleted, only title, place, price and enabled change, and nothing is disabled |
| BulkSave.OthersUntouched | backend/modules/catalog/routes.py:548-593 | options that no saved entry names are as they were, with their attributes |
| BulkSave.FailuresLeaveNoTrace | backend/modules/catalog/routes.py:545-602 | the final store is the saved entries applied in order; replaying only those saves them all; saved and errors add up to the body |
| BulkSave.FailsExactlyWhen | backend/modules/catalog/routes.py:549-597 | exactly when an entry fails, and then nothing but its key is reported |
| BulkSave.LastSavedWins | backend/modules/catalog/routes.py:551-591 | a saved entry's option and titles are stored as its last mention says |
| BulkSave.CreatedOptions | backend/modules/catalog/routes.py:556-565 | an option that a request creates has the columns of the first saved entry that names it |
| BulkSave.CreatedAttributes | backend/modules/catalog/routes.py:585-593 | an attribute that a request creates is enabled and carries nothing but its price and place |
| BulkSave.UnlistedUntouched | backend/modules/catalog/routes.py:570-593 | an attribute whose title no saved entry of its option lists is as it was |
| Exporter.ExportShowsItem | backend/modules/catalog/exporter.py:41-97 | round trip: after an upsert the export shows the item's spine and, for every listed image, variant with a sku and option, its last entry with exactly its tiers and non-blank titles |
| Exporter.ExportIsStored | backend/modules/catalog/exporter.py:41-97 | the export shows exactly the stored rows of the product, under their keys |
| Exporter.PushProductsToGraphx | backend/modules/catalog/exporter.py:137-177 | accepted batches concatenate to the products with options in order, all full but the last; a refusal ends the push with the earlier batches delivered |
| CatalogRuns.RunsKeepConsistency | backend/modules/catalog/models.py:20-245 | every foreign key, to suppliers, categories and parent categories too, stays satisfied over every run that mixes the catalog operations |
| Bootstrap.AdminStep | backend/modules/auth/routes.py:320-356 | an admin request whose author still exists keeps the author as an active vg_admin and the shape of every account |
| Bootstrap.ExactlyOneSucceeds | backend/modules/auth/routes.py:203-240 | in every interleaving of attempts and atomic admin requests from an empty instance at most one attempt succeeds, and exactly one has once any has completed |
| Bootstrap.ClosedForever | backend/modules/auth/routes.py:245-252 | with atomic admin requests, once there is a user there is an active vg_admin in every later state, and no attempt succeeds any more |
| Bootstrap.OneUnlessAdminsVanish | backend/modules/auth/routes.py:203-240 | the first of these two for every run in which no author already gone deletes the last admin |
| Bootstrap.ClosedUnlessAdminsVanish | backend/modules/auth/routes.py:245-252 | the second of them, likewise |
| Bootstrap.AuthorsKeepAdmins | backend/modules/auth/routes.py:320-356 | over every run in which the author of each admin request is still a user when it does what was asked, the last admin is never deleted |
| Bootstrap.AtomicAuthorsStay | backend/modules/auth/routes.py:320-356 | in runs whose admin requests each directly follow their check, or that have none, authors are still users |
| Bootstrap.AdminStaysIff | backend/modules/auth/routes.py:345-356 | over every run there is an admin at every moment exactly when no deletion by an author already gone hits the last one |
| Bootstrap.LastAdminLostIff | backend/modules/auth/routes.py:345-356 | a step leaves no admin exactly when it is a deletion by an author already gone that hits the last one |
| Bootstrap.CrossDeletion | backend/modules/auth/routes.py:345-356 | two vg_admins, the only users, who delete each other at the same time leave nobody and reopen registration |
| Bootstrap.LockIsNeeded | backend/modules/auth/routes.py:211-217 | without the advisory lock two attempts can both succeed |
| Bootstrap.SoloAttempt | backend/modules/auth/routes.py:218-236 | an undisturbed attempt creates the vg_admin it names on an empty table, and nothing else otherwise |
| Bootstrap.RequestEffect | backend/modules/auth/routes.py:320-356 | account by account what each admin request changes |
| WorkerPool.NeverStuck | backend/scripts/sync_sanmar_full.py:54-75 | a live worker never waits on an empty queue |
| WorkerPool.RunsAreBounded | backend/scripts/sync_sanmar_full.py:97-108 | every run is over after exactly two steps per SKU and one per worker |
| WorkerPool.OutcomesCounted | backend/scripts/sync_sanmar_full.py:61-73 | over every run done counts the syncs that succeeded and the failed SKUs are listed in the order in which they failed |
| WorkerPool.JoinMeansDone | backend/scripts/sync_sanmar_full.py:103-114 | join is released exactly when every worker has returned; then each SKU was handled as often as it was queued, done counts the successes and exactly the failures are listed, in order |
| WorkerPool.JoinReachableIff | backend/scripts/sync_sanmar_full.py:96-108 | some run releases join exactly when there is a worker or nothing to do |
| WorkerPool.SyncAll | backend/scripts/sync_sanmar_full.py:78-119 | under any scheduling and any outcomes the pool ends with every SKU handled, the successes counted, exactly the failures listed, and exit code zero exactly if there is none |
| PushWorker.NewestThousand | backend/worker.py:106-130 | in every interleaving of writers the dead-letter list is a prefix of the failure history, holds the newest thousand, and overshoots by at most the writers midway |
| PushWorker.WriteIsPushThenTrim | backend/worker.py:106-130 | one call is a push and then a trim of the concurrent protocol, as far as the connection answers: the new entry heads the list, a prefix of the old list follows, at most a thousand after a trim |
| PushWorker.Worker.FinalizePushLogFailed | backend/worker.py:133-165 | the row changes exactly when it exists and is in none of the four terminal statuses |
| PushWorker.Worker.RunPushJob | backend/worker.py:60-103 | re-raise while tries remain, dead-letter and finalize on the last |
| PushWorker.Worker.RunToEnd | backend/worker.py:68-73 | the chain of attempts under the retry contract |
| PushWorker.JobOutcome | backend/worker.py:68-103 | a job ends with a success and no dead letter, or with all tries failed, one dead letter if the push succeeds (trimmed if the trim does) and a terminal row |
| PushWorker.FinalRowKeptIff | backend/worker.py:152-163 | a job whose tries all raise leaves a row in one of the six final statuses alone exactly when it is in one of the finalizer's four or the database does not answer |
| PushWorker.DigitsRead | backend/worker.py:163 | the number of tries in the final error is written in decimal |
| PushWorker.UnclaimedJob | backend/modules/ops_push/gateway.py:957-980 | a job whose row is neither waiting to be claimed nor in the four statuses fails every try, writes a dead letter and makes the row failed |
| PushWorker.FirstCauseIsLost | backend/modules/ops_push/gateway.py:957-983 | after a raise past the claim every later try raises at the claim, and the dead letter and the row carry that error only |
| Alerting.AlertStore.CheckFailures | backend/modules/alerting/checker.py:56-101 | one notification and one flag per selected row |
| Alerting.AlertsInOrder | backend/modules/alerting/checker.py:74-98 | a check appends one unread notification for each row of its batch, in the order of the batch, and touches no other |
| Alerting.OldestFirst | backend/modules/alerting/checker.py:59-67 | a batch is ordered by time and holds a hundred rows at most |
| Alerting.AlertStore.CheckSchedulerHeartbeat | backend/modules/alerting/checker.py:156-200 | a stale heartbeat is reported unless an unread report exists |
| Alerting.HeartbeatReportedIff | backend/modules/alerting/checker.py:156-200 | a report is added exactly when the scheduler ran more than two and a half intervals ago and no report is unread; nothing else changes |
| Alerting.ExactlyOnceOverRuns | backend/modules/alerting/checker.py:10-12 | over every run of checks, failures, retries and reads each row alerted by the checker has exactly one notification and every other row none; at most one scheduler report is unread |
| Alerting.SecondFailureIsSilent | backend/modules/integrations/routes.py:774-782 | a row that was alerted, or premarked, raises no further notification however often it is retried and fails again |
| Alerting.FailsAgainAlertedIff | backend/modules/integrations/routes.py:774-782 | once the due checks have committed, a row that failed again and stayed failed has one more notification exactly when it had never been flagged |
| Alerting.RetriedPushIsSilent | backend/modules/integrations/routes.py:774-782 | one run: failure, check, retry, failure, check, and one notification |
| Alerting.ReadingEffect | backend/modules/alerting/routes.py:57-80 | reading changes the read flags it names and nothing else |
| Alerting.FirstDeployment | backend/alembic/versions/0010_alerting.py:53-60 | the backfilled table satisfies the invariant |
| Alerting.BacklogDrains | backend/modules/alerting/checker.py:32-36 | a row with k pending rows ahead of it and e early-stamped failures arriving meanwhile is alerted by the ((k + e) div 100 + 1)-th committed check, unless it leaves the failed status first |
| Pagination.FetchCustomers | n8n-nodes-onprintshop/nodes/OnPrintShop.node.ts:7231-7335 | for every list and every script of replies the exact outcome, with 429 and 502 the only errors retried: the whole list, a prefix of whole pages, the page limit or the error met; and the waits |
| Pagination.DelaysAre | n8n-nodes-onprintshop/nodes/OnPrintShop.node.ts:7276-7302 | how the wait moves after a fast page, a slow page and a retried failure |
| Pagination.SettingsAre | n8n-nodes-onprintshop/nodes/OnPrintShop.node.ts:7196-7197 | what the page size and delay settings come to |
| Pagination.CustomersOutcomeIff | n8n-nodes-onprintshop/nodes/OnPrintShop.node.ts:7278-7322 | exactly when a partial list, a query error, a request error or the page-limit error comes back |
| Pagination.PushProducts | n8n-nodes-onprintshop/nodes/OnPrintShop.node.ts:6095 | the products of one page are appended in order |
| Pagination.FetchOrderDetails | n8n-nodes-onprintshop/nodes/OnPrintShop.node.ts:6066-6104 | for every list and every script of replies the exact outcome: the product of each order covered that has one, or the error met |
| Pagination.DetailsOutcomeIff | n8n-nodes-onprintshop/nodes/OnPrintShop.node.ts:6076-6104 | exactly when products are lost without an error, and when an error comes back |
| Pagination.FetchFaqs | n8n-nodes-onprintshop/nodes/OnPrintShop.node.ts:9508-9588 | the loop stops at the first round that may stop; an error reply raises, a null list leaves its page out; with pages only and an honest total every FAQ comes back, in order |
| Pagination.FaqsEndIff | n8n-nodes-onprintshop/nodes/OnPrintShop.node.ts:9576-9587 | exactly when the loop ends |
| Pagination.HonestFaqsEnd | n8n-nodes-onprintshop/nodes/OnPrintShop.node.ts:9576-9587 | with pages only the loop ends exactly when the claimed total is at most what is served, or nothing is served |
| Pagination.NullListHangs | n8n-nodes-onprintshop/nodes/OnPrintShop.node.ts:9536-9587 | with an honest total and no error reply, a non-empty list whose first page is served ends exactly when no page has a null list |

## Left out

- HTTP, SOAP, GraphQL, Redis and PostgreSQL drivers: they appear as abstract tables, scripted replies and environment choices.
- Surrogate ids: rows are identified by their unique columns, so a derivation that re-creates an attribute counts as leaving it the same.
- Column widths, numeric scale, JSON contents and Unicode case folding: strings and prices are unbounded, JSON payloads opaque, case folding ASCII. JSON attribute lists holding something other than objects are not modelled.
- PersistProduct: does not model the older unique constraint on supplier image urls that one migration adds; it is assumed never to fire.
- SaveEntry: takes the ORM session to reload rows that a rolled-back savepoint had changed; lazy-loading failures are not modelled.
- ClosedForever: takes admin requests as atomic, what overtaken ones do being AdminStaysIff and CrossDeletion, and leaves out the startup seed that creates a default admin without the lock. New ids of users are never those of deleted authors of requests in flight.
- ExactlyOnceOverRuns: takes checks as not overlapping (startup check, several processes) and leaves out the demo endpoint and rows deleted by cascade.
- RunsKeepConsistency: suppliers are fixed, and deleting suppliers, products or categories is left to the database's cascades.
- RunToEnd: takes arq's documented retry contract as given; the job timeout is not modelled.
- SyncAll: discovery, sorting and the limit on SKUs happen before the queue is filled and are left out, as are progress logging and cancellation.
- FetchCustomers: page sizes are natural numbers; the orders loop, which retries two more codes and has a safe mode for its first page, and the product-stocks and shipment loops, which are the order-details loop over another field, are not repeated.
- Inventory ingest, customer selections, margin analytics and image grouping: they would only add easier members.
- `derive_options_bulk`: a loop of DeriveOptions with counters.
- Authentication tokens, cookies, password checks, request validation other than the role and customer check, and error redaction.
