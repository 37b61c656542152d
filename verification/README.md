# A model of the jungcar backend

The PHP scripts of `apache24/htdocs` are the backend of a used-car market and car ledger. Each
script is one request over shared tables. This project models the scripts whose correctness
lies in their SQL, or in how several scripts must agree, and proves what they keep.

Tables are sequences of records, SQL NULL is `None`, joins are nested loops, and `order by` and
`row_number()` may break ties in any way: statements about sorted results hold for every
arrangement the server may return. A script that writes is a method of a class `Database`
(`Store`, `Table`) whose postcondition gives the whole new state; a script that reads is a method
that fills its result array from a forward-only result set. Statements PHP 7.4 cannot parse,
because an empty value was interpolated, fail silently and change nothing; the model follows that.

| file | content |
|---|---|
| `Relational.dfy` | selection, joins, aggregation, grouping and ordering of tables, with their laws |
| `Decimals.dfy`, `Images.dfy` | numbers as text, the order of texts, and names of image files |
| `Mysqli.dfy` | the result-set cursor and the fetch loop |
| `Threads.dfy`, `BoardComments.dfy`, `ListingComments.dfy` | comments and replies flattened by a recursive query |
| `Market.dfy`, `Search.dfy`, `Facets.dfy`, `Bump.dfy` | the market's tables, search form, list, counts and bumps |
| `Listings.dfy`, `Attachments.dfy` | enrolling, connecting, selling and deleting; what is attached to listings and cars |
| `Outcomes.dfy` | what enrolling, connecting and selling write, column by column |
| `Lifecycle.dfy`, `References.dfy`, `Visibility.dfy` | runs of these: cars and owners, references, which listings show |
| `Cascades.dfy`, `Posts.dfy` | posting, uploading and deleting parts, deleting comments; runs of these |
| `Crashes.dfy` | crash records and the image directory |
| `Ledger.dfy`, `Odometer.dfy`, `Statistics.dfy`, `Maintenance.dfy` | the car ledger |
| `Likes.dfy`, `BoardNavigation.dfy` | like toggles; previous and next post |

## What is assumed

The repository holds no schema. Key columns (`sell_idx`, `car_idx`, `connection_idx`, `model_idx`,
`fuel_idx`, `user_idx`, `comment_idx`, `drive_idx`, `market_idx`) are unique where a lemma says so
with `Unique` or `KeysUnique`. Intact references are a hypothesis only where a lemma names it
(`AuthorsExist`, `GradesExist`, `Metered`, `Intact`). Texts compare exactly. Each script is atomic.

## Where the code does not do what it is meant for

- `apache24/htdocs/delCar.php:28` and `apache24/htdocs/delPart.php:26` fetch from the first result set, which is used up and
  has no comment column, so replies and likes stay behind. Nor do the scripts delete a post's own likes (`reco`) and
  contents (`board_content`), a listing's sale, or the ledger of its car. `Listings.CarDeletionIntact` and
  `Cascades.PartDeletionIntact` say exactly when every reference stays intact; the two `LoopOverCommentsIntact` show what
  reading the comments' result set would mend. Inputs: `Listings.AnsweredListingRemoved`, `References.AnsweredThenRemoved`,
  `Cascades.AnsweredPostDeleted`, `Cascades.LikedPostDeleted`.
- Ids are `max + 1`, so a deleted row's id can come back with what was left behind: a new post with likes
  (`Cascades.DeletedLikesInherited`), a new car with a ledger (`Listings.RemovedLedgerInherited`), a new listing already
  sold and so hidden from the start (`Visibility.ReusedIdHidden`; when a new listing shows, `Visibility.EnrolledShows`).
- `apache24/htdocs/delCar.php:51` deletes a car other listings may need (`Visibility.RemoveHidesSiblings`; input
  `Visibility.SiblingHidden`).
- `apache24/htdocs/EnrollSell.php:59` and `apache24/htdocs/ConnectMycar.php:42` insert the owner even when the insert of the car
  failed (`Lifecycle.EnrolOwned`, `Lifecycle.ConnectOwned`; inputs `Lifecycle.EnrolWithoutCatalogue`,
  `Lifecycle.ConnectUnregistered`; listings then do not show, `Visibility.EnrolUnsound`).
- `apache24/htdocs/setSellCommentList.php:15` orders by a number read as text. With n comments, where n has L digits, the list
  is in date order exactly if n is at most 9 or the comments ranked 2 and min(n, 10^L - 11) by date have one date
  (`ListingComments.DateOrderExactly`; inputs `ListingComments.DatedOutOfOrder`). The board's list has the same flaw below
  its top three: it is in date order there exactly if the lowest and the highest rank concerned have one date
  (`BoardComments.OthersInDateOrderByEnds`; inputs `BoardComments.ThirteenDates`).
- `apache24/htdocs/setStat.php:18` adds two sums before `ifnull`: with only one ledger in use the total is zero
  (`Statistics.TotalNeedsBothLedgers`; input `Statistics.FuelOnlyYear`).
- `apache24/htdocs/shCount.php:27` and its siblings use PHP `empty`, so a facet value "0" cannot be picked
  (`Facets.EmptyBucketIsNotAFilter`; input `Facets.BrandZero`); `SearchName.php` does not join `fuel`, `findCar.php` does
  (`Facets.NamesSumToFindCar`; input `Facets.CarWithoutFuel`).
- `apache24/htdocs/setSerList.php:24` lists a type with unknown months last even if its distance is overdue: every list it may
  return has the overdue types first exactly if no overdue type has unknown months or all types are overdue
  (`Maintenance.OverdueFirstExactly`; input `Maintenance.UnregisteredBehind`).
- `apache24/htdocs/setSerList.php:16-19` and `apache24/htdocs/setRecord.php:21` fall back on the whole distance when nothing was driven
  since a type's last repair, as if it had never been repaired. The column is the distance since the repair exactly if something was driven
  since or the whole distance rounds to nothing (`Maintenance.WearSinceRepair`; input `Maintenance.FreshRepairOverdue`).
- `apache24/htdocs/addDist.php:19-22` takes a back-dated reading for the current one: the entry's day shows it exactly if the
  distances stored after its date add up to nothing (`Odometer.BackdatedEntry`).

## Model

| member | source | states |
|---|---|---|
| `Decimals.DecimalInjective` | apache24/htdocs/setSellCommentList.php:15 | distinct ranks print as distinct texts |
| `Decimals.DecimalOrder` | apache24/htdocs/setSellCommentList.php:15-26 | among numbers with equally many digits the order of the printed texts is the numeric order |
| `Mysqli.ResultSet.Fetch` | apache24/htdocs/delCar.php:28 | a fetch returns the next row and moves on, or returns null and stays once the rows are used up |
| `Mysqli.FetchAll` | apache24/htdocs/setCommentList.php:40-47 | the fetch loop returns all rows of the result, in order |
| `Threads.ArmMembers` | apache24/htdocs/setCommentList.php:26-29 | a row of the recursive arm is a reply, signed by its author, to a working row that carries the post's id |
| `Threads.ArmShrinks` | apache24/htdocs/setCommentList.php:25-29 | each round of the recursion brings it nearer its end, whatever rows it works on: added rows carry a null post id |
| `Threads.IterateIsJoin` | apache24/htdocs/setCommentList.php:15-32 | the fixpoint is the first arm plus one join of it with the replies; later rounds add nothing |
| `Threads.ArmReplies` | apache24/htdocs/setCommentList.php:25-29 | the recursive arm shows every reply that finds its comment and author exactly once |
| `Threads.AuthoredComments` | apache24/htdocs/setCommentList.php:23-24 | the first arm has each comment of the post with an author exactly once |
| `Threads.ListIsPermutation` | apache24/htdocs/setCommentList.php:15-33 | any ordering of the fixpoint shows the post's comments and all replies to them, as a permutation |
| `Threads.ThreadsContiguous` | apache24/htdocs/setCommentList.php:31-33 | ordering by key and date never interleaves two threads |
| `Threads.CommentHeadsThread` | apache24/htdocs/setCommentList.php:31-33 | a comment precedes its replies in every arrangement if all are later, in none if one is earlier |
| `BoardComments.SetCommentList` | apache24/htdocs/setCommentList.php:15-47 | the returned array is an arrangement by key and date of the recursive query over some window orders |
| `BoardComments.ListComplete` | apache24/htdocs/setCommentList.php:15-33 | the board's list shows every comment of the post and every reply to one exactly once |
| `BoardComments.ListSigned` | apache24/htdocs/setCommentList.php:16-28 | every row carries the id of the user who wrote it |
| `BoardComments.ListColumns` | apache24/htdocs/setCommentList.php:17-19 | a comment's row has the post's id; with one row a like its like count is the number of users who like it, its own-like column tells if the viewer is one, its ranking is its place by likes; replies have none |
| `BoardComments.ListInBlocks` | apache24/htdocs/setCommentList.php:20-33 | threads of the board's list are contiguous and headed by their comment when replies are later |
| `BoardComments.TopThreadsFirst` | apache24/htdocs/setCommentList.php:18-22 | the up to three most-liked threads precede all others, and the number of users who like the comment never increases from one of them onward |
| `BoardComments.OtherThreadsByDate` | apache24/htdocs/setCommentList.php:20-33 | the other threads are in date order when their ranks have equally many digits, and all of them up to nine comments |
| `BoardComments.OthersInDateOrderExactly` | apache24/htdocs/setCommentList.php:20-33 | the other threads are in date order exactly when any two of them whose date ranks' texts are in the opposite of their order have one date |
| `BoardComments.OthersInDateOrderByEnds` | apache24/htdocs/setCommentList.php:20-33 | that is, exactly when the lowest of their ranks from two on and the highest that is swapped with another have one date |
| `BoardComments.ThirteenDates` | apache24/htdocs/setCommentList.php:20-33 | with thirteen or more comments on different dates they are never in date order, whatever the likes |
| `ListingComments.SetSellCommentList` | apache24/htdocs/setSellCommentList.php:13-41 | the returned array is an arrangement by key and date of the recursive query |
| `ListingComments.ListComplete` | apache24/htdocs/setSellCommentList.php:13-26 | the listing's list shows every comment and every reply to one exactly once |
| `ListingComments.ListColumns` | apache24/htdocs/setSellCommentList.php:13-24 | every row carries its writer's id, a comment's row the listing's id; there are no like columns |
| `ListingComments.ListInBlocks` | apache24/htdocs/setSellCommentList.php:13-26 | threads of the listing's list are contiguous and headed by their comment when replies are later |
| `ListingComments.EqualDigitsByDate` | apache24/htdocs/setSellCommentList.php:15-26 | threads whose date ranks have equally many digits are in date order |
| `Decimals.SwappedSpan` | apache24/htdocs/setSellCommentList.php:15 | numbers up to n whose texts are in the opposite of their order lie between 2 and min(n, 10^L - 11), L the number of digits of n |
| `Decimals.SwappedReach` | apache24/htdocs/setSellCommentList.php:15 | two such pairs together reach from 2 to min(n, 10^L - 11) |
| `ListingComments.DateOrderExactly` | apache24/htdocs/setSellCommentList.php:15-26 | the list is in date order exactly if there are at most nine comments or those ranked 2 and min(n, 10^L - 11) by date have one date |
| `ListingComments.DatedOutOfOrder` | apache24/htdocs/setSellCommentList.php:15-26 | ten or more comments on different dates are never listed in date order |
| `Market.OpenRowsMembers` | apache24/htdocs/setCount.php:18-20 | the shared join holds exactly the untraded listings with their existing car, connection, model and fuel |
| `Market.OpenRowsOncePerListing` | apache24/htdocs/setCount.php:18-20 | the shared join has each such listing once |
| `Market.LikeFindsText` | apache24/htdocs/setResList.php:39-41 | for a text without wildcards the pattern matches exactly the names the text occurs in |
| `Market.HasFindsText` | apache24/htdocs/setResList.php:39-41 | a column matches a text without wildcards exactly when it is not null and the text occurs in it |
| `Market.LikeMeans` | apache24/htdocs/setResList.php:39-41 | with wildcards the pattern matches exactly when the text falls into parts that fit it: any text, one character, or the character itself, escaped or not |
| `Market.ValueOfDecimal` | apache24/htdocs/setCount.php:40-47 | a bound printed in decimal parses and denotes that number |
| `Search.BuildCond` | apache24/htdocs/setCount.php:22-54 | the appended conditions parse exactly when set ranges have numeric bounds, and then mean what the form's fields ask |
| `Search.BuildListCond` | apache24/htdocs/setResList.php:34-70 | the same for the list script, with the name pattern |
| `Search.AdmitsMeans` | apache24/htdocs/setCount.php:22-54 | a form that parses asks for equality with each text given, for values within each range given, and for the own flag if "y" or "n"; empty texts and "0" ask for nothing |
| `Search.ParsesMeans` | apache24/htdocs/setCount.php:40-47 | it parses exactly when both bounds of each range given are plain digits |
| `Search.SetCount` | apache24/htdocs/setCount.php:18-70 | one row with the number of ids of open listings the form admits |
| `Search.CountMeans` | apache24/htdocs/setCount.php:18-20 | with unique keys the count is the number of ids of listings on sale that the form admits |
| `Search.SetResList` | apache24/htdocs/setResList.php:20-88 | one row for each admitted listing, by descending date and id, or nothing when the statement does not parse |
| `Search.ListShows` | apache24/htdocs/setResList.php:29-74 | a result has a listing exactly when it is on sale, admitted, matches the name and has its grade |
| `Search.ListColumns` | apache24/htdocs/setResList.php:29-31 | a row has its grade, the user's id exactly when the user bookmarked the listing, and one of the listing's labels or, only if it lacks one, null |
| `Search.LabelsIntact` | apache24/htdocs/setResList.php:29-31 | with an intact label table the label is null exactly when the listing has none |
| `Search.ListAgainstCount` | apache24/htdocs/setResList.php:29-74 | the list never has more rows than the count, and equally many exactly when every counted listing has its grade and matches the name |
| `Search.ListEqualsCount` | apache24/htdocs/setResList.php:29-74 | with intact grades and no name the list has exactly the counted number of rows, however many labels and bookmarks there are |
| `Facets.ShCount` | apache24/htdocs/shCount.php:24-74 | one bucket for each value of the column among the admitted listings, counting the non-null ones |
| `Facets.FacetsSumToCount` | apache24/htdocs/shCount.php:24-61 | the buckets sum to the count query exactly when no counted listing is null in the column |
| `Facets.BucketIsFilteredCount` | apache24/htdocs/shCount.php:27-58 | choosing a listed value makes the count query return the bucket's count |
| `Facets.EmptyBucketIsNotAFilter` | apache24/htdocs/shCount.php:27-58 | choosing a value PHP takes for empty filters nothing, and gives the bucket's count exactly when it is the only bucket |
| `Facets.BrandZero` | apache24/htdocs/shCount.php:27-58 | with cars of brand "0" and another on sale, picking the bucket "0" gives another count |
| `Facets.SearchName` | apache24/htdocs/SearchName.php:16-30 | one bucket per model name matching the text |
| `Facets.NamesSumToFindCar` | apache24/htdocs/findCar.php:24-26 | the buckets per name sum to at least findCar's count, with equality exactly when every matching car's fuel exists |
| `Facets.CarWithoutFuel` | apache24/htdocs/findCar.php:24-26 | one car without fuel is in a bucket and not in the count |
| `Bump.Store.InsLabel` | apache24/htdocs/insLabel.php:17-37 | a bump redates the listing and its update row if there is one, else creates the update row; other indices add a label |
| `Bump.ResultOrder` | apache24/htdocs/setResList.php:74 | a result lists existing listings by strictly descending date, and within a date by descending id |
| `Bump.BumpMovesToFront` | apache24/htdocs/insLabel.php:24-27 | a bump at a time after the dates of the result's other listings moves the listing, with that date, to the front of every form's result and keeps the others' order |
| `Listings.Database.EnrollSell` | apache24/htdocs/EnrollSell.php:27-67 | the new state after an enrolment, with the ids it returns |
| `Relational.NextId` | apache24/htdocs/EnrollSell.php:55-61 | a new id exceeds every id in use |
| `Relational.NextAfterDelete` | apache24/htdocs/EnrollPart.php:19-32 | deleting the largest id frees it for the next insert exactly when the id before is in use or it was 1 and alone |
| `Listings.Database.ConnectMycar` | apache24/htdocs/ConnectMycar.php:17-47 | the new state after connecting a car by plate, with the id it returns |
| `Listings.Database.InsImg` | apache24/htdocs/insImg.php:9-23 | the new state after writing an image file and its column or row |
| `Listings.Database.Trade` | apache24/htdocs/trade.php:12-17 | the new state after marking a listing or a part as sold |
| `Outcomes.LookupsSucceedMeans` | apache24/htdocs/EnrollSell.php:27-36 | the lookups succeed exactly when the catalogue has a connection of the year and option grade and a fuel of the name |
| `Outcomes.EnrolledCarMeans` | apache24/htdocs/EnrollSell.php:39-55 | an enrolment is about a car with the plate if there is one, else about an id above all |
| `Outcomes.EnrolledCarWritten` | apache24/htdocs/EnrollSell.php:45-58 | a successful enrolment leaves the car with the plate, mileage, year, option grade and fuel asked for, and every other car as it was |
| `Outcomes.EnrolledListingWritten` | apache24/htdocs/EnrollSell.php:48-67 | one listing is added with the price, country, own flag and date asked for, and the car gets the user as owner if it had none |
| `Outcomes.InsertableMeans` | apache24/htdocs/ConnectMycar.php:35-39 | the insert of a connected car goes through exactly when its distance is known and the catalogue names its fuel, model and connection at most once |
| `Outcomes.ConnectedCarWritten` | apache24/htdocs/ConnectMycar.php:24-42 | the connected car is as the register has it, under an id above all, owned by the user |
| `Outcomes.SaleWritten` | apache24/htdocs/trade.php:12-17 | a sale is recorded with its listing or part, seller and the buyer's user id or null, in one table only |
| `Listings.Database.DelCar` | apache24/htdocs/delCar.php:8-51 | the new state after deleting a listing: replies are not deleted |
| `Listings.Database.DeleteReplies` | apache24/htdocs/delCar.php:27-31 | the loop deletes the replies to exactly the comments that the rows still to be fetched mention |
| `Listings.Database.DelSellComment` | apache24/htdocs/delSellComment.php:13-22 | the new state after deleting a reply or a comment with its replies |
| `Listings.SellCommentDeletion` | apache24/htdocs/delSellComment.php:17-22 | nothing refers to a deleted comment, other rows stay, references stay intact |
| `Listings.CarDeletionReplies` | apache24/htdocs/delCar.php:23-33 | deleting a listing keeps replies' references intact exactly when its comments had no replies |
| `Listings.CarDeletionIntact` | apache24/htdocs/delCar.php:10-51 | a removal keeps every reference of every table intact exactly when the listing's comments had no replies, it was not sold, and no other listing or ledger row has its car |
| `Listings.RemovalTakesTags` | apache24/htdocs/delCar.php:16-20 | a removal takes the listing's labels, bookmarks, options, views and updates and no other listing's |
| `Listings.RemovalTakesListing` | apache24/htdocs/delCar.php:32-33 | it takes the listing and its comments and no others, and its sales stay: references to listings stay intact exactly when it was not sold |
| `Listings.RemovalTakesCar` | apache24/htdocs/delCar.php:34-51 | it takes the car's owner, images, row and files; other cars' rows and files and all other tables stay |
| `Listings.UploadPictured` | apache24/htdocs/insImg.php:9-23 | an upload keeps image names in their form and adds a file of its own car alone |
| `Listings.LoopOverCommentsIntact` | apache24/htdocs/delCar.php:23-31 | the same loop over the comments' result set would delete exactly the replies under the listing and change nothing else; then only sales and other users of the car could lose their reference |
| `Listings.RemovedLedgerInherited` | apache24/htdocs/delCar.php:51 | removing the newest car's listing hands its ledger to the next new car, exactly when its id comes next again |
| `Listings.AnsweredListingRemoved` | apache24/htdocs/delCar.php:23-33 | any one listing with one answered comment: its removal leaves the reply without its comment |
| `Attachments.AttachIntact` | apache24/htdocs/insSellComment.php:25 | writing or deleting comments, replies, labels, bookmarks, options, views and ledger rows keeps all references intact exactly when what is written to exists |
| `Attachments.AttachWrites` | apache24/htdocs/insOption.php:10 | an insert adds its row once to its table, a deletion takes the rows named; nothing else changes |
| `Attachments.BumpIntact` | apache24/htdocs/insLabel.php:17-37 | a bump does so exactly when the listing exists |
| `Attachments.UploadIntact` | apache24/htdocs/insImg.php:9-23 | an image does so exactly when it is the car's own or the car exists |
| `Lifecycle.EnrolOwned` | apache24/htdocs/EnrollSell.php:39-60 | an enrolment keeps car ids, plates and owners in order exactly when the car is known or its lookups succeed |
| `Lifecycle.ConnectOwned` | apache24/htdocs/ConnectMycar.php:17-45 | connecting keeps them in order exactly when the car is known, there is no car at all, or the register row is usable |
| `Lifecycle.RunOwned` | apache24/htdocs/EnrollSell.php:39-60 | a run keeps them in order in all its states exactly when every step succeeds |
| `Lifecycle.EnrolWithoutCatalogue` | apache24/htdocs/EnrollSell.php:59 | with empty tables every enrolment makes an owner of a car that was never inserted |
| `Lifecycle.ConnectUnregistered` | apache24/htdocs/ConnectMycar.php:42 | so does connecting an unregistered plate once there is some car |
| `References.StepIntact` | apache24/htdocs/delCar.php:10-51 | enrolling, connecting, selling, removing, bumping, uploading and attaching each keep all references intact under an exact condition on the state before |
| `References.RunIntact` | apache24/htdocs/delCar.php:10-51 | a run of all these keeps every reference of every table intact in all its states exactly when each step meets its condition |
| `References.NewCarFresh` | apache24/htdocs/EnrollSell.php:54-60 | after such a run a newly inserted car has no ledger, image or owner of an earlier car |
| `References.AnsweredThenRemoved` | apache24/htdocs/delCar.php:27-33 | commenting on any listing, answering and removing it leaves the reply without its comment |
| `References.RunPictured` | apache24/htdocs/insImg.php:9 | every run, uploads included, keeps image names in the form by which removals keep to their own car |
| `Visibility.SoundShows` | apache24/htdocs/setResList.php:29-33 | in a sound state the unfiltered search shows exactly the untraded listings |
| `Visibility.EnrolledShows` | apache24/htdocs/EnrollSell.php:61-67 | in any state a newly enrolled listing is shown exactly when its id was never traded and its lookups succeed or its car resolved before |
| `Visibility.StepShows` | apache24/htdocs/setResList.php:29-33 | a shown listing stays in the unfiltered search exactly when the step neither sells it nor removes a listing of its car |
| `Visibility.StepSound` | apache24/htdocs/delCar.php:10-51 | a step keeps the state sound exactly when an enrolled car resolves, what is sold is a listing, and what is removed is unsold and the only listing of its car |
| `Visibility.EnrolUnsound` | apache24/htdocs/EnrollSell.php:61-67 | with empty tables every enrolment makes the state unsound |
| `Visibility.RunSound` | apache24/htdocs/delCar.php:10-51 | a run is sound in all its states exactly when each step meets that condition: ids unique, listings resolved, traded ids within listing ids |
| `Visibility.StaysListed` | apache24/htdocs/setResList.php:29-33 | in any run a shown listing stays in the unfiltered search throughout exactly when it is never sold and no listing of its car is removed |
| `Visibility.EnrolledStaysListed` | apache24/htdocs/EnrollSell.php:61-67 | a listing enrolled at any point of any run is shown from then on throughout exactly when its id was never traded, its car resolves, and nothing later hides it |
| `Visibility.SoldNeverShows` | apache24/htdocs/trade.php:12-13 | in any run, a traded id is never found again by any form |
| `Visibility.ReusedIdHidden` | apache24/htdocs/delCar.php:33 | removing the sold listing with the largest id gives the next one its id exactly when the id before is in use or it was 1 and alone, and then hides it |
| `Visibility.RemoveHidesSiblings` | apache24/htdocs/delCar.php:51 | a removal hides exactly the listings of the same car |
| `Visibility.SiblingHidden` | apache24/htdocs/delCar.php:51 | two listings of one car: removing either hides the other |
| `Cascades.Database.EnrollPart` | apache24/htdocs/EnrollPart.php:19-37 | the new state after posting a part, with its id |
| `Cascades.Database.EnrollPartImg` | apache24/htdocs/EnrollPartImg.php:9-23 | the new state after writing an image file and its column or row |
| `Cascades.Database.DelComment` | apache24/htdocs/delComment.php:13-24 | the new state after deleting a reply or a comment with its replies and likes |
| `Cascades.Database.DelPart` | apache24/htdocs/delPart.php:10-52 | the new state after deleting a part post: replies and likes are not deleted |
| `Cascades.Database.DeleteAnswers` | apache24/htdocs/delPart.php:25-30 | the loop deletes replies and likes of exactly the comments that the rows still to be fetched mention |
| `Cascades.CommentDeletionIntact` | apache24/htdocs/delComment.php:17-23 | nothing refers to a deleted comment, other rows stay, references stay intact |
| `Cascades.PartDeletionIntact` | apache24/htdocs/delPart.php:10-52 | deleting a part post keeps every reference intact exactly when its comments had neither replies nor likes, and its board neither likes nor contents nor another part |
| `Cascades.PartDeletionFrame` | apache24/htdocs/delPart.php:16-52 | it takes the part's rows and files and its board's visits and comments; rows and files of other parts and boards stay |
| `Cascades.UploadPictured` | apache24/htdocs/EnrollPartImg.php:9-23 | enrolments and uploads keep image names in their form, and an upload adds a file of its own part alone |
| `Cascades.LoopOverCommentsIntact` | apache24/htdocs/delPart.php:21-31 | the same loop over the comments' result set would delete exactly the replies and likes under the board and change nothing else; then only the post's likes and contents and other parts could lose their reference |
| `Cascades.NewPostFresh` | apache24/htdocs/EnrollPart.php:19-35 | while references are intact a new part post starts without comments, visits, likes and contents, and they stay intact |
| `Cascades.DeletedLikesInherited` | apache24/htdocs/delPart.php:50 | after the newest post is deleted the next gets its id exactly when the id before is in use or it was 1 and alone, and starts fresh exactly when the deleted one had neither likes nor contents |
| `Cascades.LikedPostDeleted` | apache24/htdocs/delPart.php:50 | one part post liked once: its deletion leaves the like, which the next post inherits |
| `Cascades.AnsweredPostDeleted` | apache24/htdocs/delPart.php:25-31 | one part post with one answered comment: its deletion leaves the reply |
| `Posts.StepIntact` | apache24/htdocs/delPart.php:10-52 | posting, commenting, answering, liking, visiting, uploading and deleting each keep all references intact under an exact condition on the state before |
| `Posts.RunIntact` | apache24/htdocs/delPart.php:10-52 | a run of these keeps every reference intact in all its states exactly when each step meets its condition |
| `Crashes.Database.InsCrash` | apache24/htdocs/insCrash.php:16-33 | the new state after recording a crash, with its id |
| `Crashes.Database.InsCrashImg` | apache24/htdocs/insCrashImg.php:5-18 | the new state after writing an image file and its row |
| `Crashes.Database.DelCrash` | apache24/htdocs/delCrash.php:13-24 | the new state after unlinking a crash's files and deleting its rows |
| `Crashes.Database.EditCrash` | apache24/htdocs/updateCrash.php:19-38 | the new state after editing a crash, its images cleared |
| `Crashes.CrashRecorded` | apache24/htdocs/insCrash.php:16-27 | the recorded crash is there with its car, date, memo and place, under an id above all; the others stay |
| `Crashes.CrashEdited` | apache24/htdocs/updateCrash.php:32-38 | an edit sets date, memo and place of that crash alone |
| `Crashes.CrashDeleted` | apache24/htdocs/delCrash.php:22-24 | a deletion takes the crash and its image rows and no others |
| `Images.ImageNameInjective` | apache24/htdocs/insImg.php:9 | an image file name determines the id and the flag |
| `Crashes.FileNameInjective` | apache24/htdocs/insCrashImg.php:9 | file names of different crashes or flags differ |
| `Crashes.ClearKeepsOthers` | apache24/htdocs/delCrash.php:13-22 | clearing a crash removes its own files and leaves other crashes' rows, files and contents |
| `Crashes.RunInStep` | apache24/htdocs/insCrashImg.php:9-18 | in all states of a run the files are exactly those image rows name and rows belong to crashes, exactly when images are only added to existing crashes |
| `Crashes.NewCrashHasNoImages` | apache24/htdocs/insCrash.php:16-25 | a new crash's id is unused and has no images |
| `Crashes.StrayImageAdopted` | apache24/htdocs/insCrashImg.php:9-18 | an image uploaded for the next id turns up on the next crash |
| `Ledger.RoundedClose` | apache24/htdocs/setBarChart.php:17 | rounding a quotient moves it by at most one half, and a half away from zero |
| `Odometer.Database.AddDistance` | apache24/htdocs/addDist.php:19-22 | a drive with the date and memo is added under an id above all; its distance is the reading less the current one |
| `Odometer.Database.UpdateDistance` | apache24/htdocs/updateDrive.php:19 | the new state after editing a drive |
| `Odometer.Database.DeleteDistance` | apache24/htdocs/delDrive.php:13 | the new state after deleting a drive |
| `Odometer.Database.SetDist` | apache24/htdocs/setDist.php:15-16 | one row: the initial reading plus all distances for a car registered once, null for one without a register row, and the last drive's date or today's |
| `Odometer.Database.SetDriveList` | apache24/htdocs/setDriveList.php:17-29 | exactly the car's drives of the month, as often as in the table, in date order, each with the running total of its date |
| `Statistics.ListedDistances` | apache24/htdocs/setDriveList.php:17-18 | the listed drives' distances add up to the month's distance figure |
| `Ledger.RegisterRowsMembers` | apache24/htdocs/setDist.php:15-16 | a car's register rows are those under the plate of a car with the id |
| `Odometer.CurrentIsTotal` | apache24/htdocs/setDist.php:15-16 | for a car registered once the current reading is the initial one plus all stored distances |
| `Odometer.TotalUpToShares` | apache24/htdocs/setDriveList.php:17 | the total up to a day is the sum of the distances of the car's drives on or before it |
| `Odometer.CurrentIsLastEntered` | apache24/htdocs/addDist.php:19-22 | whatever the dates and earlier drives, the current reading is the last one entered |
| `Odometer.RoundTrip` | apache24/htdocs/setDriveList.php:17-18 | after entries at dates that never go back, entry i's row is the i-th appended, and every list of its month shows it with the reading entered, if it is its day's last |
| `Odometer.BackdatedEntry` | apache24/htdocs/addDist.php:19-22 | an entry of any date comes back as its day's total exactly when the distances stored after its date add up to nothing |
| `Odometer.EditShifts` | apache24/htdocs/updateDrive.php:19 | an edit shifts the current reading by exactly the change in distance, for the drive's car only |
| `Odometer.DeleteShifts` | apache24/htdocs/delDrive.php:13 | a deletion takes back exactly the stored distance |
| `Statistics.SetYear` | apache24/htdocs/setYear.php:15-29 | the returned years ascend and are exactly those in which the car has a drive, a bill or a repair |
| `Statistics.SetStat` | apache24/htdocs/setStat.php:16-34 | one row if the car exists and none otherwise: sums over all bills, repairs and drives of the car's of the year, and their total only if both ledgers of money have one |
| `Statistics.SetCarRecord` | apache24/htdocs/setCarRecord.php:17-45 | distance and bills of the year and of the month as sums over all the car's rows of that time |
| `Statistics.SetBarChart` | apache24/htdocs/setBarChart.php:16-38 | one bar for each month of the year with a repair or a bill of the car's, in month order, with the month's sums in rounded thousands |
| `Statistics.YearsListed` | apache24/htdocs/setYear.php:15-17 | the years are distinct, ascending and exactly those with any row |
| `Statistics.YearsConserve` | apache24/htdocs/setStat.php:16-20 | over the listed years the fuel, maintenance and distance figures sum to the all-time ones |
| `Statistics.YearsReachReading` | apache24/htdocs/setRecord.php:15-16 | the initial odometer reading plus the yearly distances is the all-time reading |
| `Statistics.MonthsConserve` | apache24/htdocs/setCarRecord.php:17-25 | the twelve monthly figures sum to the yearly ones |
| `Statistics.TotalNeedsBothLedgers` | apache24/htdocs/setStat.php:16-19 | the yearly total is the sum of its parts exactly when both ledgers have a row or the parts cancel |
| `Statistics.FuelOnlyYear` | apache24/htdocs/setStat.php:18 | a year with one bill and no repair shows the total zero |
| `Statistics.OneBarPerMonth` | apache24/htdocs/setBarChart.php:16-28 | one bar for each month with any row, in month order: the two arms agree |
| `Statistics.ChartCloseToYear` | apache24/htdocs/setBarChart.php:16-28 | a thousand times a column misses the year's total by at most 500 a bar, and there are at most twelve |
| `Maintenance.SetSerList` | apache24/htdocs/setSerList.php:16-34 | every type as often as in the table, in order of the larger of its two ratios, those without a month ratio last |
| `Maintenance.SetRecord` | apache24/htdocs/setRecord.php:15-45 | sums over all the car's bills and repairs, the current reading, and an overdue count within the bounds of the wear list where the two queries agree |
| `Maintenance.JoinKeepsLastDone` | apache24/htdocs/setSerList.php:22-23 | joining the drives repeats a type's rows but not its latest repair date |
| `Maintenance.MonthsBetweenFit` | apache24/htdocs/setSerList.php:20 | the month difference is the number of whole months that fit between the dates, with the sign of their order |
| `Maintenance.LastDoneMeans` | apache24/htdocs/setSerList.php:20 | the last repair of a type is the latest of the car's repairs of it |
| `Maintenance.MonthsSinceRepair` | apache24/htdocs/setSerList.php:20 | after a repair the month ratio is of the whole months that fit from it to 2023-07-01, and the type is overdue by months exactly when more fit than its standard |
| `Maintenance.MonthsSinceRegistration` | apache24/htdocs/setSerList.php:20-21 | without a repair the same holds of the months since the registration month |
| `Maintenance.NoMonthStandard` | apache24/htdocs/setSerList.php:20 | a type without a month standard has the month ratio zero and is never overdue by months |
| `Maintenance.DistanceOverdue` | apache24/htdocs/setRecord.php:21 | a repaired type is overdue by distance exactly when more than its standard was driven since, or if nothing was, ever |
| `Maintenance.NeverRepairedDistance` | apache24/htdocs/setRecord.php:21 | for a type never repaired the whole distance counts, in both queries |
| `Maintenance.PeriodDiffCounts` | apache24/htdocs/setSerList.php:20-21 | the period difference counts the months since the registration month |
| `Maintenance.WearAgreesWithOverdue` | apache24/htdocs/setRecord.php:21-25 | a rounded ratio above 1.00 means counted overdue; counted overdue means at least 1.00 |
| `Maintenance.AgreeExactly` | apache24/htdocs/setRecord.php:21-25 | for a type with a standard distance the two queries agree up to a ratio of 1.00 exactly when its months are known or its distance is not overdue |
| `Maintenance.OverdueFirstExactly` | apache24/htdocs/setSerList.php:24 | for types with standard distances every list the script may return has the overdue types first, up to ties at 1.00, exactly when no overdue type has unknown months or all types are overdue |
| `Maintenance.OverdueBehind` | apache24/htdocs/setSerList.php:24 | an overdue type with unknown months can be listed behind any type that is not overdue |
| `Maintenance.OverdueCountBounds` | apache24/htdocs/setRecord.php:29-32 | the overdue count lies between the number of types above 1.00 and of those from 1.00 on, when the two queries agree on each type |
| `Maintenance.UnknownMonthsSink` | apache24/htdocs/setSerList.php:19-24 | a type with unknown months is listed behind every comparable one, overdue or not |
| `Maintenance.UnregisteredBehind` | apache24/htdocs/setSerList.php:24 | an unregistered car driven beyond one standard: that type can be listed behind one that is not overdue |
| `Maintenance.WearSinceRepair` | apache24/htdocs/setSerList.php:16-19 | the distance column is of the distance since the last repair exactly when something was driven since or the whole distance rounds to nothing; otherwise it is of the whole |
| `Maintenance.RepairedButOverdue` | apache24/htdocs/setRecord.php:21 | a type repaired after the last drive is overdue as soon as the car was ever driven beyond the standard |
| `Maintenance.FreshRepairOverdue` | apache24/htdocs/setRecord.php:21 | one drive beyond the standard and then a repair: still overdue |
| `Likes.Table.ChgReco` | apache24/htdocs/chgReco.php:16-44 | the toggled table; the count is the number of users who now like the item, the flag whether the user does; no other row changes |
| `Likes.LikedByParity` | apache24/htdocs/chgCmtReco.php:16-44 | after any toggles a user likes an item by the parity of the user's own toggles of it, with at most one row each |
| `Likes.ToggleTwiceRestores` | apache24/htdocs/chgReco.php:24-32 | two toggles restore the table |
| `Likes.ToggleCounts` | apache24/htdocs/chgReco.php:24-34 | a toggle moves the item's count by one, and no other item's |
| `Likes.LookupOwn` | apache24/htdocs/shBoard.php:18-19 | the view's own-like column is 1 or 0, as the user likes the item or not |
| `BoardNavigation.ChgBoard` | apache24/htdocs/chgBoard.php:16-28 | for some order of the type's posts by date, one row with the ids after and before the post, null at the ends; no row for a post of another type |
| `BoardNavigation.NextPreInverse` | apache24/htdocs/chgBoard.php:16-17 | next and previous are inverse |
| `BoardNavigation.VisitsEveryPostOnce` | apache24/htdocs/chgBoard.php:16-17 | following the answers' next column from the oldest post visits exactly the posts of the named type, each once, and stops |

## Left out

- Search.BuildCond: range bounds other than plain decimal digits count as statements that do not parse.
- Search.BuildListCond: the same bounds; and here as in BuildCond the texts for brand, model, grade, country and name are taken as they are, a quote or backslash in them is not interpreted.
- Search.SetResList: a user id other than plain decimal digits counts as a statement that does not parse.
- Facets.ShCount: the requested column is one of brand, year, fuel name, country and own, not any expression.
- Facets.SearchName: the text is taken as it is; a quote in it is not interpreted by the statement.
- Statistics.SetStat: without the litres and the consumption, which divide by a unit price in floating point.
- Statistics.SetCarRecord: without the litres and the consumption, for the same reason.
- Maintenance.SetRecord: without the crash count and the consumption.
- Maintenance.SetSerList: the ratio is the exact quotient rounded once; how many digits the server keeps in between is not modelled.
- Crashes.Database.InsCrashImg: flags are decimal numbers; other texts in a path are not interpreted.
- Cascades.Database.EnrollPartImg: flags are decimal numbers, as for crashes.
- Listings.Database.InsImg: flags are decimal numbers, as for crashes.
- Files of a post's contents: only their rows are modelled, under the post's id.
- BoardNavigation.ChgBoard: one tie-break is fixed for posts of the same date across requests.
- Text comparison ignores collation: upper and lower case, accents and trailing spaces are distinguished.
- Column widths, auto-increment counters after deletions, and constraints a schema may add.
- Two requests at once: the scripts use no transactions, and `max + 1` ids only make sense one after another.
- JSON printing, connections, headers, base64, image recognition, mail, login and location scripts.
- Scripts that are one insert or delete (`insSellComment.php`, `insOption.php`, `insComment.php` and the like) are steps of runs, on values; edits of texts are left out.
- Lists that are one plain query (`setCarInfo.php`, `setOil.php`, `MyBoardList.php` and the like) would only add easy members.
