# Heritage x Culture Barbershop — a verified model of the site's logic

The barbershop site is a React front end over a hosted Postgres backend and
a storage bucket. Almost all of its behaviour is presentation. The logic
that decides something sits in three hooks, one storage helper and a few
small components. This project models that logic in Dafny and proves what
it promises.

- **Loyalty ledger** (`useLoyalty`). The hook computes the award gate (10
  points per whole $10), derives the tier, does a read-modify-write on the
  user's points row and appends to the transaction ledger.
  - It also refuses a redemption larger than the cached balance.
  - It has two pure lookups: tier benefits and points to the next tier.
  - Two quirks are reproduced on purpose:
    - the amount credited is what the `calculate_loyalty_points` RPC
      returns, not the local gate;
    - a first-ever award inserts the row and then increments it again, so
      it credits twice. `Loyalty.FirstAwardCreditsTwice` proves that the
      balance is then twice the ledger sum.
- **Slot booking** (`useBookings`). Availability and the next free slot are
  queries over the `time_slots` table.
  - `createAppointment` checks the slot, inserts the appointment, then marks
    the slot, in that order.
  - A slot read that does not find exactly one row still books.
  - A failed slot update is swallowed.
  - The proofs show that a booked time leaves the availability of that
    barber and day, and that nothing else changes.
- **Gallery** (`googleStorage`, `useGallery`). This covers:
  - the normalisation of a bucket listing: media filter, folder-to-category
    table, file-name-to-title, first-four-featured, category filter,
    newest-first sort;
  - the upload path with its character sanitising;
  - the Pexels URL rewrite;
  - the three-source fallback of `loadImages`;
  - the admin gate on upload and delete;
  - the local filters.
- **Small decisions**:
  - the "open now" badge of the hero section;
  - the upload dialog's file validation and title suggestion;
  - the sign-up form's validation order;
  - the protected-route decision;
  - the hash-driven page state;
  - the customer dashboard's upcoming/past split and status label.

The hooks become classes. Each class holds both the hook's state (`loading`,
`error`, the loaded lists) and the backend tables the hook touches, as `seq`
or `map` fields. Each backend call becomes a step on those tables. Each way
a call can fail is an explicit parameter that names the failing step
(`Loyalty.Fault`, `Bookings.BookingFault`, `Gallery.UploadFault`,
`Gallery.QueryOutcome`). The other inputs are parameters too:

- what the RPC returns;
- the bucket listing;
- "now" and "today";
- `encodeURIComponent`;
- the clock reading `Date.now()`.

Dates and times are integers (a date number and a minute of the day). Prices
are reals. Each method is proved against a pure function that states the
effect (`Loyalty.Award`, `Loyalty.Redeem`, `Bookings.MarkBooked`,
`Gallery.LoadedImages`, …). The lemmas are proved about those functions.

Modules: `Wrappers` (Option), `Seqs` (filter, map, stable insertion sort),
`Text` (the JavaScript string built-ins the code uses), `Auth` (roles and
profiles), then one module per source file.

## Model

| member | source | states |
|---|---|---|
| Loyalty.TierFor | src/hooks/useLoyalty.ts:107 | gold iff lifetime ≥ 1000, silver iff 500 ≤ lifetime < 1000, bronze iff lifetime < 500 |
| Loyalty.TierMonotone | src/hooks/useLoyalty.ts:92 | more lifetime points never give a lower tier |
| Loyalty.AwardGate | src/hooks/useLoyalty.ts:66-69 | the gate is a multiple of 10, at most the price and within 10 of it; it is ≤ 0 exactly when the price is below $10 |
| Loyalty.AwardedRows | src/hooks/useLoyalty.ts:84-117 | an existing row gains the amount in balance and lifetime; a missing row ends with twice the amount in both; the tier follows the new lifetime; every other user's row is untouched; tier-consistency is preserved |
| Loyalty.RedeemedRows | src/hooks/useLoyalty.ts:162-171 | the user's row gets the cached balance minus the amount, with lifetime and tier unchanged; no row is created; other rows are untouched |
| Loyalty.LedgerSumAppend | src/hooks/useLoyalty.ts:122-130 | appending a transaction adds its points to its user's ledger sum and nothing to anyone else's |
| Loyalty.AwardKeepsReconciled | src/hooks/useLoyalty.ts:103-132 | when the row already exists, the increment plus the `earned` entry keep balance equal to the ledger sum |
| Loyalty.FirstAwardCreditsTwice | src/hooks/useLoyalty.ts:84-119 | a first award with an empty ledger leaves balance and lifetime at twice the single ledger entry |
| Loyalty.RedeemKeepsReconciled | src/hooks/useLoyalty.ts:162-185 | a redeem from an up-to-date row keeps balance equal to the ledger sum, with lifetime and tier unchanged |
| Loyalty.RecentFor | src/hooks/useLoyalty.ts:44-49 | the user's own transactions, newest first, exactly min(20, their count) of them: the i-th result is the user's i-th entry counted back from the latest; all come from the ledger |
| Loyalty.TierBenefits | src/hooks/useLoyalty.ts:202-231 | silver gives 5% and 3 benefits, gold 10% and 4; every other tier string gets exactly the bronze record (0%, 2 benefits) |
| Loyalty.BenefitsGrowWithTier | src/hooks/useLoyalty.ts:202-231 | a higher tier never gives a smaller discount or fewer benefits |
| Loyalty.PointsToNextTier | src/hooks/useLoyalty.ts:234-247 | 0 with no data or for gold, 500 − lifetime for bronze, 1000 − lifetime for silver; when the tier matches lifetime the result is in 1..500 and earning it reaches a higher tier |
| Loyalty.Award | src/hooks/useLoyalty.ts:59-147 | below the gate nothing is written and the call succeeds; each failing step leaves exactly the writes done before it (a created row survives a failed update) and the award error; success credits the RPC amount and appends one `earned` entry; only the user's row changes and the ledger only grows |
| Loyalty.Redeem | src/hooks/useLoyalty.ts:150-199 | more than the cached balance is refused with "Insufficient points" and no write; otherwise the balance becomes cached − amount and one `redeemed` entry is appended, or the failing step's writes and "Failed to redeem points"; lifetime and tier of every row are unchanged |
| Loyalty.LoyaltyHook.constructor | src/hooks/useLoyalty.ts:6-10 | a fresh hook has no data, no transactions, not loading and no error |
| Loyalty.LoyaltyHook.FetchLoyaltyData | src/hooks/useLoyalty.ts:13-37 | no user: nothing changes; otherwise the cached row is the user's row (or none) and loading ends; a failed read sets "Failed to load loyalty information" |
| Loyalty.LoyaltyHook.FetchTransactions | src/hooks/useLoyalty.ts:40-56 | the list becomes the user's 20 most recent transactions; a failed read or no user keeps it |
| Loyalty.LoyaltyHook.WriteAward | src/hooks/useLoyalty.ts:72-132 | the tables, result and error after the backend steps are exactly those of `Award` |
| Loyalty.LoyaltyHook.AwardPoints | src/hooks/useLoyalty.ts:59-147 | no user: false and nothing changes; otherwise the tables follow `Award`, loading ends, and a successful award above the gate refreshes the cached row and transactions |
| Loyalty.LoyaltyHook.RedeemPoints | src/hooks/useLoyalty.ts:150-199 | no user or no cached row: false and nothing changes; otherwise the tables follow `Redeem` on the cached row; the insufficient-points refusal does not touch loading; success refreshes the cached data |
| Bookings.ByNameTotal | src/hooks/useBookings.ts:17 | ordering barbers by name is total |
| Bookings.ActiveBarbersByName | src/hooks/useBookings.ts:13-17 | exactly the active barbers, each as often as in the table, in name order |
| Bookings.ActiveServicesByPrice | src/hooks/useBookings.ts:30-34 | exactly the active services, each as often as in the table, in ascending price |
| Bookings.AvailableTimes | src/hooks/useBookings.ts:47-56 | ascending; a time is listed iff some unbooked slot of that barber and date has it, once per such slot |
| Bookings.GetAvailableSlots | src/hooks/useBookings.ts:45-61 | a failed query gives []; otherwise the available times |
| Bookings.NextAvailable | src/hooks/useBookings.ts:66-78 | none iff no unbooked slot of the barber is dated today or later; otherwise such a slot's (date, time), and no such slot comes earlier in date-then-time order |
| Bookings.GetNextAvailableSlot | src/hooks/useBookings.ts:64-83 | a failed query gives none; otherwise the next available slot |
| Bookings.ReadSlot | src/hooks/useBookings.ts:102-112 | a row is read iff exactly one slot matches (barber, date, time), and then its is_booked flag is returned |
| Bookings.MarkBooked | src/hooks/useBookings.ts:128-136 | same length; exactly the matching slots become booked with the appointment id, all others are unchanged |
| Bookings.MarkedMatches | src/hooks/useBookings.ts:128-136 | the matching slots after the update are the booked copies of those before it, in order |
| Bookings.SecondBookingRefused | src/hooks/useBookings.ts:114-116 | after a slot that read as one row is marked, it reads as booked, so a second request is refused |
| Bookings.MarkKeepsOtherFree | src/hooks/useBookings.ts:128-136 | the free slots of every other barber or date are the same after the update |
| Bookings.BookedTimeGone | src/hooks/useBookings.ts:130-136 | after marking (barber, date, time), that time is no longer available for that barber and date |
| Bookings.OtherTimeKept | src/hooks/useBookings.ts:130-136 | a different time that was available stays available |
| Bookings.OtherTimeNotAdded | src/hooks/useBookings.ts:130-136 | marking a slot never makes a time available that was not |
| Bookings.OtherTimesStay | src/hooks/useBookings.ts:130-136 | every other time of that barber and date is available after the update iff it was before |
| Bookings.OtherDaysStay | src/hooks/useBookings.ts:130-136 | the availability of every other barber or date is identical after the update |
| Bookings.FailureText | src/hooks/useBookings.ts:146 | the error message if non-empty, else "Failed to create appointment" |
| Bookings.BookingsHook.constructor | src/hooks/useBookings.ts:5-8 | over existing tables (slots may already be booked by appointments whose ids are below the counter): the tables and counter as given, empty lists, not loading, no error; the link invariant holds |
| Bookings.BookingsHook.FetchBarbers | src/hooks/useBookings.ts:11-25 | success loads the active barbers by name and keeps the error; failure keeps the list and sets "Failed to load barbers" |
| Bookings.BookingsHook.FetchServices | src/hooks/useBookings.ts:28-42 | success loads the active services by price and keeps the error; failure keeps the list and sets "Failed to load services" |
| Bookings.BookingsHook.CreateAppointment | src/hooks/useBookings.ts:86-151 | a failed read or insert, or a slot read as booked, gives null, the matching error and no change to either table; otherwise exactly one appointment with a fresh id is appended and the slots become `MarkBooked` of the old ones (unchanged if the update fails); loading ends; every linked slot still points at an appointment for that slot |
| Bookings.BookingsHook.MarkKeepsLinks | src/hooks/useBookings.ts:128-136 | marking the slot with the new appointment's id keeps every slot link pointing at an appointment for that slot |
| GoogleStorage.ImageCategories | src/lib/googleStorage.ts:133-135 | eight distinct categories, the first being "all" |
| GoogleStorage.FolderCategory | src/lib/googleStorage.ts:175-184 | beard, styling, shave, creative, premium and haircuts map to themselves; any other folder containing "service" maps to "full-service"; every other folder maps to itself with each whitespace run replaced by one '-'; the result has no whitespace |
| GoogleStorage.CategoryOf | src/lib/googleStorage.ts:169-185 | a name without '/' is "haircuts"; otherwise the folder table applied to the lower-cased text before the first '/'; the result has no whitespace and no upper-case letter |
| GoogleStorage.TitleStem | src/lib/googleStorage.ts:188-189 | the text after the last '/' up to its first '.', holding neither character |
| GoogleStorage.TitleOf | src/lib/googleStorage.ts:188-196 | "Media" when the stem is empty; otherwise as long as the stem, each character the stem's with '-' and '_' as spaces, the first one upper-cased; never empty and never containing '-', '_', '.' or '/' |
| GoogleStorage.ListingNameParts | src/lib/googleStorage.ts:169-189 | an object `folder/stem.ext` is titled from `stem` and filed under the folder table applied to the lower-cased folder |
| GoogleStorage.ListingTitleExample | src/lib/googleStorage.ts:188-196 | `beard/fade-1.jpg` is titled "Fade 1" |
| GoogleStorage.BeardFolderExample | src/lib/googleStorage.ts:171-175 | every file directly in the `beard` folder is filed under "beard" |
| GoogleStorage.MixedCaseFolderExample | src/lib/googleStorage.ts:171-175 | the folder is lower-cased first: every file directly in `Beard/` is filed under "beard" |
| GoogleStorage.OtherFolderWords | src/lib/googleStorage.ts:182-184 | an unnamed folder of two words without "service" becomes the words joined by one '-', however long the whitespace run between them |
| GoogleStorage.ServiceFolderExample | src/lib/googleStorage.ts:179 | the folder "barber service" is filed under "full-service" |
| GoogleStorage.ToImageFields | src/lib/googleStorage.ts:166-201 | the id is the etag or a `gcs-` id, the url is the public storage URL of the encoded name and is recognised as one, title and category are the derived ones, no barber, the content type is carried over, featured iff the index is below 4, dated by the creation time or else now |
| GoogleStorage.UploadIsListed | src/lib/googleStorage.ts:159-165 | an uploaded image or video whose file name has an extension passes the listing's media filter |
| GoogleStorage.ToImages | src/lib/googleStorage.ts:166-202 | one record per kept item, in order; a record is featured iff its index is below 4 |
| GoogleStorage.FeaturedAreFirstFour | src/lib/googleStorage.ts:198 | the featured records are exactly the first four (or all, when fewer) |
| GoogleStorage.FromListing | src/lib/googleStorage.ts:158-209 | the media items' records in the category, each as often as listed, newest first |
| GoogleStorage.Mock | src/lib/googleStorage.ts:16-113 | a mock record carries its category and the shared load instant |
| GoogleStorage.MockEntry | src/lib/googleStorage.ts:16-113 | each of the twelve mock records has a category and the load instant |
| GoogleStorage.MockEntryLow | src/lib/googleStorage.ts:17-64 | mock records 1–6 have a category and the load instant |
| GoogleStorage.MockEntryHigh | src/lib/googleStorage.ts:65-112 | mock records 7–12 have a category and the load instant |
| GoogleStorage.MockGalleryImages | src/lib/googleStorage.ts:16-113 | twelve records, all stamped with the load instant and all with a category |
| GoogleStorage.MockFiltered | src/lib/googleStorage.ts:146 | exactly the mock records of the category; the whole list with no category or "all" |
| GoogleStorage.FetchFromGcs | src/lib/googleStorage.ts:138-215 | a non-empty listing gives the normalised listing; a failed request, an unreadable body or an empty listing gives the filtered mock list |
| GoogleStorage.CategoryNarrows | src/lib/googleStorage.ts:205-207 | whatever is fetched for a category carries that category |
| GoogleStorage.FetchGalleryImages | src/lib/googleStorage.ts:218-229 | the category's mock records, each once, newest first |
| GoogleStorage.NewerFirstTotal | src/lib/googleStorage.ts:209 | the newest-first comparison is total |
| GoogleStorage.MockSortKeepsOrder | src/lib/googleStorage.ts:222-228 | all mock records share one instant, so sorting them keeps the declared order |
| GoogleStorage.SanitizeChar | src/lib/googleStorage.ts:239 | a character is kept or becomes '_'; the result is alphanumeric, '.', '_' or '-' |
| GoogleStorage.UploadPath | src/lib/googleStorage.ts:238-239 | the path starts with the category (default "haircuts") and '/' |
| GoogleStorage.UploadPathParts | src/lib/googleStorage.ts:238-239 | the first path segment is the category; the last is the timestamp, '-' and the sanitised name |
| GoogleStorage.FolderCategoryFixed | src/lib/googleStorage.ts:175-181 | every category a user can pick maps to itself through the folder table |
| GoogleStorage.UploadPathCategory | src/lib/googleStorage.ts:169-185 | the category read back from an upload path is the folder table applied to the upload's category |
| GoogleStorage.UploadCategoryRoundTrip | src/lib/googleStorage.ts:238-239 | an image uploaded under a selectable category is listed again under that same category |
| GoogleStorage.DefaultTitle | src/lib/googleStorage.ts:257 | as long as the name's text before its first '.', each character kept when it is a letter or digit and a space otherwise |
| GoogleStorage.AlnumOrSpace | src/lib/googleStorage.ts:257 | the result is always a letter, a digit or a space |
| GoogleStorage.UploadToGcs | src/lib/googleStorage.ts:231-271 | id is the timestamp, url is the bucket URL of the upload path, category defaults to "haircuts", title to the name-derived one, featured only when set true; barber and finish time carried over |
| GoogleStorage.IsGcsUrl | src/lib/googleStorage.ts:281-283 | every URL that starts with the public storage prefix is recognised |
| GoogleStorage.GcsUrlIsGcs | src/lib/googleStorage.ts:191 | every URL the gallery builds for an object is recognised as a storage URL, so optimizeImageUrl returns it unchanged for any sizes |
| GoogleStorage.SizeParams | src/lib/googleStorage.ts:295-299 | `w=<width>&` when the width is truthy, then `h=<height>&` when the height is truthy, then `auto=compress&cs=tinysrgb`: it starts with the two size parts, ends with the fixed parameters and is exactly as long as the three; never contains '?' |
| GoogleStorage.WidthExample | src/lib/googleStorage.ts:295-299 | width 800 alone gives `w=800&auto=compress&cs=tinysrgb` |
| GoogleStorage.BothSizesExample | src/lib/googleStorage.ts:295-299 | 400 by 300 gives `w=400&h=300&auto=compress&cs=tinysrgb` |
| GoogleStorage.ZeroSizeExample | src/lib/googleStorage.ts:296-297 | a zero size counts as not given |
| GoogleStorage.OptimizeImageUrl | src/lib/googleStorage.ts:285-305 | storage URLs, non-Pexels URLs and calls without a truthy size are returned unchanged; a Pexels URL with a truthy size becomes its text before '?', then '?', then the size parameters; the part before '?' is always kept |
| GoogleStorage.OptimizeIdempotent | src/lib/googleStorage.ts:285-305 | rewriting an already rewritten URL with the same sizes changes nothing |
| Gallery.RowImage | src/hooks/useGallery.ts:34-42 | a metadata row becomes the record with its id, `gcs_url` as url, category, barber and featured flag |
| Gallery.MetadataQuery | src/hooks/useGallery.ts:21-30 | the rows of the category (all with no category or "all"), each as often as stored, newest first |
| Gallery.LoadedImages | src/hooks/useGallery.ts:30-62 | rows when the query answered with some; the bucket fetch when it answered empty or with an error; the mock list when it threw |
| Gallery.LoadedImagesInCategory | src/hooks/useGallery.ts:15-66 | whichever source is used, every loaded image belongs to the requested category |
| Gallery.UploadedRow | src/hooks/useGallery.ts:92-98 | the inserted row keeps the uploaded record's url, category and title |
| Gallery.GalleryHook.CanEdit | src/hooks/useGallery.ts:184-185 | upload and delete are allowed iff a user is signed in and the profile's role is admin |
| Gallery.GalleryHook.constructor | src/hooks/useGallery.ts:8-12 | no images, not loading, no error, category "all", not uploading |
| Gallery.GalleryHook.LoadImages | src/hooks/useGallery.ts:15-66 | the images become the loaded list, the error is set only when the query threw, loading ends |
| Gallery.GalleryHook.UploadImage | src/hooks/useGallery.ts:69-116 | a non-admin gets false, the admin-only error and no change; a null upload or a thrown insert gives false, its error and no table change; otherwise true, the row appended unless the insert returned an error, and the selected category reloaded; uploading ends |
| Gallery.GalleryHook.SaveAndReload | src/hooks/useGallery.ts:90-114 | the inserted rows are appended, the selected category is reloaded, loading and uploading end |
| Gallery.GalleryHook.DeleteImage | src/hooks/useGallery.ts:119-148 | a non-admin gets false, the admin-only error and no change; an admin gets true, the images without that id and the table without that row unless its delete fails |
| Gallery.GalleryHook.FilterByCategory | src/hooks/useGallery.ts:151-154 | the category is stored and the images are reloaded with it |
| Gallery.GalleryHook.FeaturedImages | src/hooks/useGallery.ts:157-159 | exactly the featured images |
| Gallery.GalleryHook.ImagesByBarber | src/hooks/useGallery.ts:162-164 | exactly the images of that barber |
| Gallery.DeleteKeepsOrder | src/hooks/useGallery.ts:140 | deleting from a split list deletes from each part, so the survivors keep their order; an image survives iff its id differs |
| Gallery.DeleteAbsentId | src/hooks/useGallery.ts:140 | deleting an id no image has leaves the list unchanged |
| Hero.MinuteOfDay | src/components/Hero.tsx:14 | for a valid clock reading, a minute of the day from which hour and minute are recovered |
| Hero.IsOpen | src/components/Hero.tsx:9-37 | open only on a weekday number 0–6 and between 10:00 and 20:00; the exact hours per day are stated by OpenMatchesPublishedHours |
| Hero.PublishedIndex | src/components/Hero.tsx:18-34 | maps a weekday number to its row in the published hours |
| Hero.OpenMatchesPublishedHours | src/components/Hero.tsx:18-34 | the badge is open exactly within the hours the contact section publishes (src/components/Contact.tsx:12-20), for every day and minute; any other day value is closed |
| Hero.OpeningBoundaries | src/components/Hero.tsx:20-32 | on every day the opening minute is open, the minute before it and the closing minute are closed |
| ImageUpload.CategoryOptions | src/components/gallery/ImageUpload.tsx:24 | the categories without "all" |
| ImageUpload.FileError | src/components/gallery/ImageUpload.tsx:29-39 | a non-image type is refused first, then a size above 10 MiB; a file passes iff it is an image of at most 10485760 bytes |
| ImageUpload.CollapsedStem | src/components/gallery/ImageUpload.tsx:53-56 | the upload's default title with space runs collapsed: only alphanumerics and spaces, with no two whitespace characters adjacent |
| ImageUpload.SuggestedTitle | src/components/gallery/ImageUpload.tsx:53-57 | only alphanumerics and single spaces, no space at either end |
| ImageUpload.SuggestedTitleTwoWords | src/components/gallery/ImageUpload.tsx:53-57 | two alphanumeric words around any run of other characters, before an extension, are suggested as the two words with exactly one space between ("a-b.jpg" gives "a b") |
| ImageUpload.SpacedKeepsAlnum | src/components/gallery/ImageUpload.tsx:55 | turning non-alphanumerics into spaces keeps the alphanumerics in order |
| ImageUpload.KeepsIsAlnum | src/components/gallery/ImageUpload.tsx:55-56 | on an alphanumeric-or-space string, the characters kept across collapsing are exactly the alphanumerics |
| ImageUpload.CollapsedKeepsAlnum | src/components/gallery/ImageUpload.tsx:53-56 | collapsing keeps exactly the stem's alphanumerics, in order |
| ImageUpload.SuggestedTitleKeepsAlnum | src/components/gallery/ImageUpload.tsx:53-57 | the suggested title holds exactly the alphanumerics of the name before its first '.', in order |
| ImageUpload.UploadDialog.constructor | src/components/gallery/ImageUpload.tsx:14-22 | no file or preview, empty title, category "haircuts", not featured, no success, no error |
| ImageUpload.UploadDialog.HandleFileChange | src/components/gallery/ImageUpload.tsx:26-61 | no file: nothing changes; a refused file sets only the error; an accepted file is stored, clears the error and fills the title only when it is empty |
| ImageUpload.UploadDialog.PreviewLoaded | src/components/gallery/ImageUpload.tsx:46-48 | the preview becomes the data URL |
| ImageUpload.UploadDialog.HandleSubmit | src/components/gallery/ImageUpload.tsx:63-82 | without a file nothing happens; otherwise the upload is called with the file and metadata, and success, failure or a thrown error set the flag or the message |
| ImageUpload.UploadDialog.HandleClose | src/components/gallery/ImageUpload.tsx:84-91 | file, preview, metadata, success and error return to their initial values |
| SignupModal.ValidationError | src/components/auth/SignupModal.tsx:42-50 | a mismatch is reported before the length; the password passes iff it matches and has at least 6 characters |
| SignupModal.SignupForm.constructor | src/components/auth/SignupModal.tsx:16-25 | customer account, empty form, not loading, no messages |
| SignupModal.SignupForm.HandleSubmit | src/components/auth/SignupModal.tsx:37-69 | a validation failure sets its message, calls nothing and leaves the form and loading alone; otherwise sign-up is called once with the form and account kind, success clears the form and sets the message, a rejection sets its message or "Failed to create account"; loading ends |
| SignupModal.SignupForm.HandleClose | src/components/auth/SignupModal.tsx:71-76 | messages and every field are cleared |
| ProtectedRoute.Decide | src/components/ProtectedRoute.tsx:10-59 | the spinner while loading; children iff signed in with a profile whose role is allowed; a missing user or profile gives the fallback or "Access Restricted"; a refused role gives the fallback when there is one; "Access Denied" iff the role is not allowed and there is no fallback |
| ProtectedRoute.DefaultAdmitsEveryProfile | src/components/ProtectedRoute.tsx:12 | with the default roles every signed-in user with a profile sees the children |
| AppContext.ParsePage | src/contexts/AppContext.tsx:33-34 | a page iff the fragment is exactly one of the four page names |
| AppContext.FragmentFor | src/contexts/AppContext.tsx:27 | the fragment is empty exactly for home |
| AppContext.FragmentRoundTrip | src/contexts/AppContext.tsx:27-35 | the fragment written for a page other than home reads back as that page; home's empty fragment reads as nothing |
| AppContext.AppState.constructor | src/contexts/AppContext.tsx:22-40 | the page starts as home, then takes the initial fragment's page if it names one |
| AppContext.AppState.NavigateTo | src/contexts/AppContext.tsx:24-28 | the page becomes the target and the fragment is written for it |
| AppContext.AppState.HandleHashChange | src/contexts/AppContext.tsx:32-37 | the current fragment's page becomes current; otherwise the page is unchanged |
| AppContext.AppState.HashChanged | src/contexts/AppContext.tsx:42 | a new fragment arrives and is handled |
| AppContext.NavigateThenReload | src/contexts/AppContext.tsx:24-40 | navigating and then re-reading the written fragment keeps the page |
| CustomerDashboard.UpcomingAppointments | src/components/dashboard/CustomerDashboard.tsx:46-48 | exactly the appointments after now that are not cancelled |
| CustomerDashboard.PastAppointments | src/components/dashboard/CustomerDashboard.tsx:50-52 | exactly the appointments at or before now, or completed |
| CustomerDashboard.Partition | src/components/dashboard/CustomerDashboard.tsx:46-52 | cancelled is never upcoming, completed is always past, any other status is in exactly one list, a future completed one is in both |
| CustomerDashboard.OverviewUpcoming | src/components/dashboard/CustomerDashboard.tsx:123 | the first three upcoming appointments (fewer if there are fewer) |
| CustomerDashboard.OverviewPast | src/components/dashboard/CustomerDashboard.tsx:167 | the first five past appointments (fewer if there are fewer) |
| CustomerDashboard.ListsKeepOrder | src/components/dashboard/CustomerDashboard.tsx:46-52 | both filters distribute over concatenation, so they keep the fetched order |
| CustomerDashboard.StatusLabel | src/components/dashboard/CustomerDashboard.tsx:137 | the status name with its first character upper-cased |
| CustomerDashboard.StatusLabels | src/components/dashboard/CustomerDashboard.tsx:226 | the four labels are "Pending", "Confirmed", "Completed", "Cancelled" |
| Text.UpToFirst | src/lib/googleStorage.ts:172 | `split(c)[0]`: the longest prefix without c, followed by c when shorter than the string |
| Text.UpToFirstConcat | src/lib/googleStorage.ts:172 | the part before the first separator is recovered from a joined string |
| Text.AfterLast | src/lib/googleStorage.ts:188 | `split(c).pop()`: the longest suffix without c, preceded by c when shorter than the string |
| Text.AfterLastConcat | src/lib/googleStorage.ts:188 | the part after the last separator is recovered from a joined string |
| Text.ToLower | src/lib/googleStorage.ts:172 | same length, each character lowered |
| Text.Capitalize | src/lib/googleStorage.ts:196 | same length, first character upper-cased, rest unchanged |
| Text.OrElse | src/lib/googleStorage.ts:238 | the JavaScript `or` default: the value when present and non-empty, otherwise the default |
| Text.ReplaceRuns | src/components/gallery/ImageUpload.tsx:56 | `replace(/\s+/g, rep)`: empty iff the input is; starts with the replacement iff the input starts with a separator, else with the same character; ReplaceRunsJoin states that each run becomes exactly one replacement |
| Text.ReplaceRunsJoin | src/components/gallery/ImageUpload.tsx:56 | a maximal run of separators between two parts, however long, becomes exactly one replacement, and each part is replaced on its own |
| Text.ReplaceRunsSeparators | src/components/gallery/ImageUpload.tsx:56 | every separator left is the replacement, and no two are adjacent |
| Text.ReplaceRunsKeeps | src/components/gallery/ImageUpload.tsx:56 | the non-separator characters are kept in order |
| Text.Trim | src/components/gallery/ImageUpload.tsx:57 | `trim()`: a slice of the input with no separator at either end, adding no character and no adjacent separators |
| Text.TrimKeeps | src/components/gallery/ImageUpload.tsx:57 | trimming keeps every non-separator character in order |
| Text.NatToString | src/lib/googleStorage.ts:239 | a non-empty digit string |
| Text.NatToStringRoundTrip | src/lib/googleStorage.ts:239 | the digits printed for a number read back as that number |
| Text.StrLeTotal | src/hooks/useBookings.ts:17 | the name order is total |
| Seqs.SortBy | src/lib/googleStorage.ts:209 | sorted by the order and a permutation of the input |
| Seqs.SortBySorted | src/lib/googleStorage.ts:228 | sorting an already sorted list returns it unchanged |
| Seqs.Filter | src/hooks/useGallery.ts:158 | membership iff in the input and satisfying the predicate, a sub-multiset of the input |
| Seqs.FilterConcat | src/hooks/useGallery.ts:140 | filtering distributes over concatenation |

## Left out

- Network, timers, the file reader and logging. The bucket request, the
  simulated delays and the console output are not modelled. The bucket
  answer is the `BucketResponse` parameter and the preview arrives through
  `PreviewLoaded`.
- The body of the `calculate_loyalty_points` RPC is not part of this model.
  Its answer is the `rpcPoints` parameter.
- The hosted client and auth context (`src/lib/supabase.ts`,
  `src/contexts/AuthContext.tsx`) are not part of this model. Queries are
  steps on the in-memory tables. The user and profile are constructor
  arguments, and backend errors are the fault parameters.
- Concurrency is not modelled. Each hook has one sequential caller, so the
  check-then-insert race of `createAppointment` is out of scope.
- Dates and times are integers. Parsing of ISO strings, time zones and
  `new Date()` are left out; "now" and "today" are parameters.
- Loyalty.LoyaltyHook.AwardPoints: the refresh it performs after a write
  is assumed to succeed. A failed refresh read is not modelled.
- Gallery.GalleryHook.DeleteImage: the catch branch is not modelled.
  `deleteFromGCS` is a mock that always succeeds and the metadata delete
  reports errors rather than throwing, so the branch is unreachable here.
- Gallery.GalleryHook.LoadImages: the intermediate `loading = true` state
  is not observable in a sequential model. Only the final `!loading` is
  stated. The same holds for `uploading` and the loyalty and booking
  `loading` flags.
- Gallery.LoadedImages: the second-level catch, where the mock fetch
  itself fails, cannot happen, because the mock list is a constant.
- GoogleStorage.ToImage: the clock reading used for the `gcs-<time>-<i>`
  fallback id and for a missing `timeCreated` is one value for the whole
  listing. The source reads the clock per item.
- GoogleStorage.MockGalleryImages: the twelve `new Date()` stamps are taken
  as one instant.
- A missing `name` on a listing item is not modelled. The item mapping
  reads it unconditionally and would throw, and the model requires a name.
- Text.ToLower and Text.Capitalize: case mapping is ASCII only. Strings are
  sequences of code points, whereas JavaScript's `length`, `slice` and
  regexes count UTF-16 code units. The whitespace class covers the ASCII
  and common Unicode spaces listed in `Text.IsJsSpace`.
- Bookings.ActiveBarbersByName: names are ordered by code point. The
  database collation and the sort's stability for equal keys are not
  modelled. The model's sort is stable.
- The joined `barber` and `service` records that the appointment insert
  selects back, and the `created_at` and `updated_at` columns, are not
  modelled.
- The input-change handlers of the sign-up and upload forms only copy a
  field into the form state and are left out. The auto-close timers after
  a successful sign-up or upload are left out too.
- `isGCSConfigured`, `generateGCSUrl`'s use of the environment, and the
  project id are configuration. The bucket name is a parameter.
- The display of amounts (currency and percentage formatting) is not
  modelled.
- Prices and points amounts are Dafny reals and integers, not JavaScript
  doubles. Rounding of binary floating point (for example in the award
  gate's division of the price by 10) is not modelled.
