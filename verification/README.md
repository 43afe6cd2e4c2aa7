# A verified model of the alt-usb-mount state core

The daemon keeps two tables, mount rules (`permissions`) and recorded mounts
(`mount_points`), each an id-ordered map mirrored to a JSON file. A web form
edits the rules; udev events mount and unmount devices. This project models the
parts of that system that hold state or transform data, and proves what they
keep.

**Storage.** `Tables` is the generic table of daemon/dal/table.cpp as a class
with its rows, its file and its transaction flag; `MountStore` and `RuleStore`
are the two tables over it, `Dto` the row formats. `StoreProtocol` is the
two-lock protocol of a table used without transactions, one lock operation or
one file access per step, for any number of threads and any schedule;
`MountProtocol` puts the mount table into it. `Transactions` is the protocol of
a table changed only inside transactions; `RuleTransactions` puts the rule table
into it.

**Rules.** `RuleForm` is the page's duplicate check and the difference it sends,
`RulePatch` the daemon's delete, update and create passes. `RulePlan` says what
a save means row by row, `RuleSave` proves that the difference, applied, is that
meaning, and `RuleRuns` follows sequences of requests, also from pages that other
saves have overtaken.

**Mounts.** `MountWorld` describes the kernel's mount list, the directories below
`/media/alt-usb-mount/` and the recorded rows, with each system call's outcome
as an answer of the environment; `MountMeaning` says case by case what they do from
any state. `MountDaemon` is the daemon's code over it,
`MountAgreement`, `MountTheorems`, `MountRuns` and `MountRecords` prove what it keeps
when events and reviews follow one another, `MountOverlap` looks into a review that runs
beside the events, step by step, and `OverlapRuns` says which overlaps do harm.
`Endpoint` is the loop that names a mount directory.

**Codecs.** `LogPages`, `MessageProtocol`, `HtmlCodec` and `QuoteCodec`.

Code that changes state is a class or a method with loops, proved equal to a
specification function; the laws are lemmas about those functions. All maps and
sequences are unbounded; 64-bit ids, 32-bit page arithmetic, the endpoint
counter and the signed/unsigned kinds of JSON integers are written out.

## Where the code and its description differ

- daemon/dal/mount_points.cpp:80-81 calls the search before `Create` a guard
  against duplicates. The search and the insertion take the lock separately, so
  two threads that create the same entry can both pass it
  (`MountProtocol.TwoCreatorsCanDuplicate`). The guard works exactly when no
  entry may be created by two threads: `MountProtocol.GuardWorksIff`.
- daemon/dal/table.cpp:149-168 clones the rows when committing, after the
  changes, so a commit that cannot open its file keeps the changes in memory:
  `Tables.Table.ProcessTransaction`.
- daemon/dbus_methods.cpp:300-327 leaves the transaction open when a request
  element throws. `RulePatch.RequestGoesThroughIff` says for which requests, and
  `RulePatch.StaleUpdateThrows` names one: a page that updates a rule another
  page has deleted. Every other transaction then waits for good:
  `RuleTransactions.UnfitSaveBlocksAll`.
- The page checks for duplicates (alterator_usbmount/usbmount_ui/alt_usb_mount.js:1448-1482)
  and the daemon only when it creates a rule (daemon/dbus_methods.cpp:374-380), not
  when it updates one. A page that another save has overtaken can therefore leave
  two rules for one device (`RuleRuns.OvertakenPageDuplicates`);
  `RuleRuns.RequestUniqueIff` says for which requests, on every table.
- daemon/dal/device_permissions.cpp:49-77 reads ids as signed numbers, so a
  stored id of 2^63 or more makes the whole file unreadable
  (`RuleStore.LargeIdFailsLoad`); the mount table accepts every 64-bit id.
- A device that reports the type `ntfs3` itself is recorded under a type that
  unmounting never looks for. Mount and unmount restore the table exactly when
  the device reports another type (`MountTheorems.MountThenUnMountIff`);
  `MountRuns.Ntfs3StickLeavesRow` is a failing run from the empty state.
- An endpoint may be a directory that is already a mount point, if the file
  system there is blank: `MountRuns.SharedEndpoint` and
  `MountRuns.RunsStaySaneIff` give the exact condition, and
  `MountRuns.BlankStickIsMountedOver` such an event.
- When /etc/mtab cannot be read at start-up, mounted devices are mounted again:
  `MountRuns.StartUpKeepsOneLineIff`, `MountRuns.UnreadableMtabRemounts`. A review
  that cannot read it forgets every mount: `MountRecords.StepRecordsIff`.
- daemon/udev_monitor.cpp:99-107 runs the periodic review beside the handling of
  events. `OverlapRuns.OverlapIff`: the two threads always rest with every row
  mounted exactly when two overlaps of theirs cannot occur, and nothing in the
  code rules these out (`OverlapRuns.ReviewOutrunsCreate`,
  `OverlapRuns.ReviewUnMountsStranger`). A review that has read mtab before a
  mount can also drop the row of that mount (`OverlapRuns.StaleReviewDropsRow`).
- The page window of the log is right for an existing page exactly when the end
  of the page stays in the signed 32-bit range or wraps past the whole log
  (`LogPages.ExistingPageIff`), and empty past the end exactly when its offsets
  do not wrap into the log (`LogPages.PastEndPageIff`); `LogPages.WrappedPage` is
  a request for a page that does not exist and that returns another page.
- A text wrapped in quotes after `EscapeQuotes` is one literal only when its
  backslashes pair up: `QuoteCodec.EscapeQuotesIsLiteralIff`.

## Model

| member | source | states |
|---|---|---|
| `Text.DecimalRoundTrip` | daemon/utils.cpp:369-380 | The value of a printed number is the number. |
| `Text.IdSurvivesPrinting` | daemon/utils.cpp:369-380 | Every 64-bit id, printed and parsed by the daemon, comes back. |
| `Text.CStrFixed` | daemon/dal/dto.cpp:128-145 | Cutting at a NUL leaves a string unchanged exactly when it holds no NUL. |
| `Text.CStrIsPrefix` | daemon/dal/dto.cpp:128-145 | What is kept is the text before the first NUL. |
| `Text.ContainsIff` | daemon/utils.cpp:104-131 | The substring test holds if and only if the text stands somewhere in the other. |
| `Text.TrimDrops` | alterator_bindings/message_reader.cpp:39-96 | Trimming drops white space at the two ends and nothing else. |
| `Text.TrimFinds` | alterator_bindings/message_reader.cpp:39-96 | Trimming finds a trimmed text again in any white space around it. |
| `Text.NumberIff` | daemon/utils.cpp:369-380 | A text parses as an id if and only if it is spaces, a sign or none, and digits whose value fits 64 bits, with no "-" in front. |
| `Text.NumeralParses` | daemon/utils.cpp:369-380 | Such a text parses to the value of its digits, negated in 64-bit arithmetic after a "-". |
| `Dto.ReadPermission` | daemon/dal/dto.cpp:161-186 | The field-by-field constructor computes the reader that `PermissionReads` shows to undo printing: members checked first, then users, groups, device, the first failure ending it. |
| `Dto.PrintPermission` | daemon/dal/dto.cpp:188-211 | Prints a rule as the object its reader expects. |
| `Dto.ReadAllIff` | daemon/dal/dto.cpp:161-186 | A JSON array of users or groups reads exactly when every element is an object that reads, and then element by element. |
| `Dto.UsersRead` | daemon/dal/dto.cpp:80-101 | Printed users, parsed again, read back with their names cut at NULs. |
| `Dto.GroupsRead` | daemon/dal/dto.cpp:104-125 | Printed groups, parsed again, read back with their names cut at NULs. |
| `Dto.MountReads` | daemon/dal/dto.cpp:128-158 | A printed mount entry, parsed again among other members, reads back as itself with strings cut at NULs. |
| `Dto.PermissionReads` | daemon/dal/dto.cpp:161-211 | A printed rule, parsed again among other members, reads back as itself with strings cut at NULs. |
| `Dto.CPermissionFixed` | daemon/dal/dto.cpp:161-211 | That reading back is the identity exactly for NUL-free rules. |
| `Dto.StoredMembers` | daemon/dal/dto.cpp:45-211 | Which member of the stored objects holds which field, by the names in the file. |
| `Dto.MountFromIff` | daemon/dal/dto.cpp:128-145 | An object reads as a mount if and only if its three members are strings, and as which one. |
| `Dto.AccountFromIff` | daemon/dal/dto.cpp:80-125 | An object reads as a user or a group if and only if it has a name and an unsigned id, which is taken modulo 2^32. |
| `Dto.PermissionFromIff` | daemon/dal/dto.cpp:161-186 | An object reads as a rule if and only if its device and each of its users and groups reads. |
| `Tables.CreateIsFresh` | daemon/dal/device_permissions.cpp:79-91 | A created row gets an id above every present one and overwrites nothing, if and only if the largest id is not in use. |
| `Tables.CreateAtLastId` | daemon/dal/device_permissions.cpp:79-91 | With the largest id in use the counter wraps: the row goes to id 0, or is lost when 0 is taken. |
| `Tables.ApplyMeans` | daemon/dal/table.cpp:116-140 | Row by row: Delete removes the id and no other, Clear leaves none, RemoveExpired keeps exactly what is not expired, Update changes the one row if it is there, and Create adds one row above all others if and only if the largest id is free. |
| `Tables.SurvivorIsFramed` | daemon/dal/table.cpp:116-140 | Over any run of operations a surviving row changes only by an update at its own id. |
| `Tables.EraseKeepsSuccessor` | daemon/dal/mount_points.cpp:165-183 | Erasing the row under the iterator leaves the successor the loop goes on with. |
| `Tables.RowsLoadBack` | daemon/dal/table.cpp:92-104 | If each row reads back up to a cleaning, loading the printed table rebuilds the id-to-row map up to that cleaning. |
| `Tables.BadRowFailsLoad` | daemon/dal/device_permissions.cpp:49-77 | One row that does not read back fails the whole load. |
| `Tables.Table.ToJson` | daemon/dal/table.cpp:92-104 | Prints the rows in id order. |
| `Tables.IdsAscend` | daemon/dal/table.cpp:92-104 | The iteration meets every id once, in ascending order. |
| `Tables.RowsFollowIds` | daemon/dal/table.cpp:92-104 | The printed and the listed rows are those of the ids in that order. |
| `Tables.Table.Delete` | daemon/dal/table.cpp:116-126 | Removes at most the given id and mirrors the rows unless a transaction is open. |
| `Tables.Table.RemoveExpired` | daemon/dal/mount_points.cpp:165-183 | The erase-while-iterating loop is the filter of live rows, ids and contents kept. |
| `Tables.Table.ProcessTransaction` | daemon/dal/table.cpp:149-168 | Writes the rows and closes the transaction; when the file does not open, the changes stay in memory and the file is as before. |
| `Tables.Table.Load` | daemon/dal/mount_points.cpp:47-77 | The loading loop computes that load, and fails when it does. |
| `Tables.LoadFileMeans` | daemon/dal/mount_points.cpp:47-77 | A file loads if and only if it is empty or an array of readable rows; every id in it gets one row, and the first of equal ids wins. |
| `MountStore.FindEntry` | daemon/dal/mount_points.cpp:127-143 | Finds an equal row exactly when there is one. |
| `MountStore.FindDeviceIsFirst` | daemon/dal/mount_points.cpp:146-163 | The row found for a device is the one with the least id, and none is found only if there is none. |
| `MountStore.CreateMountIff` | daemon/dal/mount_points.cpp:79-97 | After Create the entry is in the table, the old rows are as before, and something changed if and only if it was not there. |
| `MountStore.ReadMountRowIff` | daemon/dal/mount_points.cpp:47-77 | An array element reads as a row if and only if it is an object with an unsigned id of either kind that reads as a mount. |
| `MountStore.CreateKeepsDistinct` | daemon/dal/mount_points.cpp:79-97 | Creating keeps the recorded mounts pairwise distinct. |
| `MountStore.MountsReload` | daemon/dal/mount_points.cpp:47-77 | The file of a mount table loads back to the same rows exactly when no string holds a NUL, for all 64-bit ids. |
| `MountStore.Mountpoints.Create` | daemon/dal/mount_points.cpp:79-97 | Adds an entry unless an equal one is there, and then touches neither rows nor file. |
| `MountStore.Mountpoints.Find` | daemon/dal/mount_points.cpp:127-143 | The locked search returns the first equal row. |
| `MountStore.Mountpoints.RemoveExpired` | daemon/dal/mount_points.cpp:165-183 | Keeps exactly the rows whose directory is valid, and mirrors them. |
| `RuleStore.RulesReload` | daemon/dal/device_permissions.cpp:49-77 | The file of a rule table loads back to the same rows exactly when all ids are below 2^63 and no string holds a NUL. |
| `RuleStore.LargeIdFailsLoad` | daemon/dal/device_permissions.cpp:49-77 | A single id of 2^63 or more makes the whole file unreadable. |
| `RuleStore.ReadRuleRowIff` | daemon/dal/device_permissions.cpp:49-77 | An array element reads as a rule if and only if it is an object with an id of the signed kind that is not negative, and reads as a rule. |
| `RuleStore.FindRuleIsFirst` | daemon/dal/device_permissions.cpp:107-120 | The rule found for a device is the one with the least id, and none is found only if there is none. |
| `RuleStore.DevicePermissions.Find` | daemon/dal/device_permissions.cpp:107-120 | Returns the first rule for the device, and None only if there is none. |
| `StoreProtocol.StepInv` | daemon/dal/table.cpp:76-140 | Every step of every thread keeps the locks exclusive, the records true, and "the file disagrees only while a thread is between its change and its write". |
| `StoreProtocol.RunInv` | daemon/dal/table.cpp:76-140 | That invariant holds after every schedule of any number of threads. |
| `StoreProtocol.QuietFileAgrees` | daemon/dal/table.cpp:76-104 | Whenever no operation is in flight the file is the text of the rows in memory, or the text loaded if nothing changed. |
| `StoreProtocol.WritesAreMonotone` | daemon/dal/table.cpp:76-104 | Every completed write shows rows the table really had, and successive writes never go back to older rows. |
| `StoreProtocol.NoDeadlock` | daemon/dal/table.cpp:76-140 | While an operation is in flight some thread inside an operation can step. |
| `StoreProtocol.SoloIsDone` | daemon/dal/table.cpp:76-140 | From rest, a call that no other thread disturbs comes to rest again, and unless it is refused the rows are changed and the file shows them. |
| `StoreProtocol.SoloLookup` | daemon/dal/mount_points.cpp:99-163 | An undisturbed lookup holds the data lock shared while it looks, and leaves everything as it was. |
| `StoreProtocol.ThrowingChangesNothing` | daemon/dal/mount_points.cpp:112-124 | A change that throws under the lock gives the lock back and changes nothing. |
| `MountProtocol.QuietRestart` | daemon/dal/mount_points.cpp:47-124 | A restart while no operation is in flight reads back exactly the rows in memory, whatever the interleaving before. |
| `MountProtocol.SoloDelete` | daemon/dal/table.cpp:116-126 | An undisturbed Delete ends at rest with the row gone from the table and from what a restart reads, and every other row as before. |
| `MountProtocol.SoloCreate` | daemon/dal/mount_points.cpp:79-97 | An undisturbed Create of a new entry ends at rest with the entry in the table and in what a restart reads, and every old row as before. |
| `MountProtocol.OwnersKeepDistinct` | daemon/dal/mount_points.cpp:79-97 | Any number of threads that create different entries, beside others that delete, never store an entry twice, from any start and under every schedule. |
| `MountProtocol.TwoCreatorsCanDuplicate` | daemon/dal/mount_points.cpp:79-97 | Any two different threads that create the same entry have a schedule that stores it twice. |
| `MountProtocol.GuardWorksIff` | daemon/dal/mount_points.cpp:79-97 | The search before the insertion guards against duplicates, under all starts and schedules without updates, if and only if no entry may be created by two threads. |
| `MountProtocol.ConcurrentCreatesAllLand` | daemon/dal/mount_points.cpp:79-97 | When threads that create different entries only create and all are idle again, every begun entry is there once beside the unchanged old rows, so the count adds up. |
| `Transactions.StepExclusive` | daemon/dal/table.cpp:142-168 | Every step keeps the transaction, data and file locks with one thread, and says when that thread changes. |
| `Transactions.OneTransactionAtATime` | daemon/dal/table.cpp:142-168 | Two threads inside a transaction are the same thread. |
| `Transactions.TransactionsAreSerial` | daemon/dal/table.cpp:142-168 | Between transactions, rows and file are the batches applied one after the other in lock order. |
| `Transactions.CommitIsVisible` | daemon/dal/table.cpp:149-168 | Right after a commit wrote, file and rows show every batch up to and including this one. |
| `Transactions.ThrownBatchBlocksAll` | daemon/dbus_methods.cpp:300-327 | Once a thread has thrown inside a transaction, no schedule changes rows or file or lets another thread in. |
| `Transactions.SoloEndsIff` | daemon/dbus_methods.cpp:300-327 | A thread nobody disturbs comes out of its transaction, with the batch applied and written, if and only if the batch applies to the rows it finds; otherwise it has thrown. |
| `Transactions.FailingBatchBlocksAll` | daemon/dbus_methods.cpp:300-327 | From any reachable state with nobody inside, a batch that does not apply keeps every other thread out for good. |
| `Transactions.RunConserves` | daemon/dal/table.cpp:142-168 | Every batch a thread began is, once, either in the order the lock was taken or with a thread that waits for the lock. |
| `Transactions.FinishedRunIsSerial` | daemon/dal/table.cpp:142-168 | When all threads are out, rows and file are exactly the begun batches, each once, one after the other in some order. |
| `Transactions.NoDeadlock` | daemon/dal/table.cpp:142-168 | Unless a batch threw, some thread inside a transaction can step. |
| `RuleTransactions.FinishedSavesAreSerial` | daemon/dbus_methods.cpp:291-335 | When all SaveRules calls are over, the rules are what the begun requests, each once, give one after the other in some order, and the file reloads to them. |
| `RuleTransactions.SaveEndsIff` | daemon/dbus_methods.cpp:291-335 | An undisturbed SaveRules leaves its transaction if and only if its request fits the rules it finds. |
| `RuleTransactions.UnfitSaveBlocksAll` | daemon/dbus_methods.cpp:291-335 | A request that does not fit stops all later saving by other threads, under every schedule. |
| `RuleTransactions.StalePageBlocksAll` | daemon/dbus_methods.cpp:291-335 | One such request: a page updates a rule that another page has deleted. |
| `RuleTransactions.FinishedInsertsCount` | daemon/dal/device_permissions.cpp:79-91 | When all transactions are over, exactly the rows the threads began to insert follow the old ones at consecutive fresh ids, each as often as begun. |
| `RuleTransactions.EqualInsertsCount` | daemon/dal/device_permissions.cpp:79-91 | N transactions of k rows each leave N * k rows more, under every schedule that lets them finish. |
| `RuleTransactions.ExtendCounts` | daemon/dal/device_permissions.cpp:79-91 | Creating k rows adds exactly k, while the id counter has room for them. |
| `RuleForm.CheckNoDuplicateRows` | alterator_usbmount/usbmount_ui/alt_usb_mount.js:1448-1482 | Succeeds exactly when live rows have distinct keys, which for four-character ids means distinct devices, and marks exactly the rows that share theirs. |
| `RuleForm.SaveRules` | alterator_usbmount/usbmount_ui/alt_usb_mount.js:1487-1561 | Sends nothing on duplicates; otherwise each row lands in the list its marks call for. |
| `RuleForm.NoDuplicatesIff` | alterator_usbmount/usbmount_ui/alt_usb_mount.js:1448-1482 | For rows whose trimmed vid and pid have four characters, the check on joined keys passes if and only if the (vid, pid, serial) triples of the live rows are pairwise different. |
| `RuleForm.RowLands` | alterator_usbmount/usbmount_ui/alt_usb_mount.js:1487-1561 | Where each kind of row lands, and with which texts: new, deleted, updated, unchanged, or dropped for an empty cell. |
| `RuleForm.SeenStep` | alterator_usbmount/usbmount_ui/alt_usb_mount.js:1448-1482 | The `seen` map holds the first row of each key, so one lookup decides whether a row has a twin among the earlier ones. |
| `RulePatch.ApplyRulesConcat` | daemon/dbus_methods.cpp:291-335 | A request is its lists run one after the other, and stops at the first exception. |
| `RulePatch.KnownAccountIsFound` | daemon/dbus_methods.cpp:337-382 | A listed user or group is found by its name. |
| `RulePatch.PatchUserMeans` | daemon/dbus_methods.cpp:384-443 | "--" makes root the first user, the name of another system user makes that one the first, and an empty or unknown text changes nothing. |
| `RulePatch.PatchGroupMeans` | daemon/dbus_methods.cpp:384-443 | The name of a system group makes it the first group, and an empty or unknown text changes nothing. |
| `RulePatch.NewRuleMeans` | daemon/dbus_methods.cpp:337-382 | A new rule has the sent device, the system user of the sent name, root for "--", and the system group of the sent name. |
| `RulePatch.NewRuleIff` | daemon/dbus_methods.cpp:337-382 | A new rule is accepted if and only if its ids are valid, no field is empty, and the system knows both accounts. |
| `RulePatch.PlainVidIff` | daemon/utils.cpp:382-399 | A text without spaces, signs and an "x" is a valid id if and only if it is four hexadecimal digits. |
| `RulePatch.ValidVidIff` | daemon/utils.cpp:382-399 | A text is a valid id if and only if it has four characters, no "-" in front, and is spaces, a sign or none, "0x" or nothing, and hexadecimal digits, all zero behind a "-". |
| `RulePatch.FindUserIsFirst` | daemon/dbus_methods.cpp:337-382 | Of several system users with one name the first is taken. |
| `RulePatch.DbusMethods.PatchOriginal` | daemon/dbus_methods.cpp:384-443 | Empty cells and unknown accounts keep the stored value, "--" is root, and the result goes through its JSON form. |
| `RulePatch.DbusMethods.UpdateRules` | daemon/dbus_methods.cpp:384-443 | Applies the updates in order, or ends in the exception of the first that fails. |
| `RulePatch.DbusMethods.CreateRules` | daemon/dbus_methods.cpp:337-382 | Adds each valid rule whose device has none yet; an invalid one throws. |
| `RulePatch.DbusMethods.SaveRules` | daemon/dbus_methods.cpp:291-335 | Rows and file become the request applied; the transaction stays open, and the file as it was, if and only if the request does not fit the rules. |
| `RulePatch.RequestGoesThroughIff` | daemon/dbus_methods.cpp:291-443 | A request goes through if and only if all deleted ids parse, every updated rule is stored, not deleted by the same request and has an account to replace where a known one is sent, and every new rule has valid ids, no empty field and known accounts. |
| `RulePatch.StaleUpdateThrows` | daemon/dbus_methods.cpp:384-443 | An update of a rule that is no longer stored throws. |
| `RulePlan.DeletesApply` | daemon/dbus_methods.cpp:303-312 | The delete pass removes exactly the dropped rules and touches no other. |
| `RulePlan.UpdatesApply` | daemon/dbus_methods.cpp:384-443 | The update pass gives every kept rule its final form at its own id, whatever keys clash on the way. |
| `RulePlan.CreatesApply` | daemon/dbus_methods.cpp:337-382 | The create pass drops no row to the duplicate test and appends them in order. |
| `RulePlan.ExtendShape` | daemon/dal/device_permissions.cpp:79-91 | Added rules take the ids right above the old ones, in order, and nothing else changes. |
| `RulePlan.PlanIsCarriedOut` | daemon/dbus_methods.cpp:291-443 | Delete, update and create together carry out every good plan: dropped rules gone, kept ids unchanged, added rules present. |
| `RulePlan.EveryRuleIsOwned` | daemon/dbus_methods.cpp:291-443 | Every rule afterwards belongs to a step of the plan: nothing appears from elsewhere. |
| `RulePlan.CarriedOutIsUnique` | daemon/dbus_methods.cpp:374-380 | A carried-out plan with distinct devices leaves one rule per device. |
| `RuleSave.RuleIdSurvives` | alterator_usbmount/usbmount_ui/alt_usb_mount.js:1487-1561 | A rule id, printed, shown, trimmed and parsed by the daemon, is the same id. |
| `RuleSave.PatchIsEdited` | daemon/dbus_methods.cpp:384-443 | The daemon's patch by a sent row is the stored rule with exactly the marked cells replaced. |
| `RuleSave.NewRuleIsEntered` | daemon/dbus_methods.cpp:337-382 | The rule created from an appended row is the one entered, with "--" as root. |
| `RuleSave.RowIsShown` | alterator_usbmount/usbmount_ui/alt_usb_mount.js:1487-1561 | What a surviving row becomes reads as the row shows it. |
| `RuleSave.FormCarriesPlan` | alterator_usbmount/usbmount_ui/alt_usb_mount.js:1487-1561 | The three lists of the form are the deletes, updates and creates of the page's meaning. |
| `RuleSave.PageKeysSeparate` | alterator_usbmount/usbmount_ui/alt_usb_mount.js:1448-1482 | Distinct trimmed concatenated keys suffice for distinct (vid, pid, serial) triples. |
| `RuleSave.SaveRulesIsExact` | daemon/dbus_methods.cpp:291-443 | Saving a checked page turns the table it was loaded from into exactly the page: deleted rows gone, others as shown, surviving ids unchanged, no appended row lost. |
| `RuleSave.UntouchedPageKeepsTable` | alterator_usbmount/usbmount_ui/alt_usb_mount.js:1487-1561 | A page with distinct keys, saved as it was loaded, may be submitted and leaves the table as it is. |
| `RuleSave.SaveKeepsRulesUnique` | alterator_usbmount/usbmount_ui/alt_usb_mount.js:1448-1482 | Saving a checked page against the table it was loaded from leaves at most one rule per device, and a table the next page can be loaded from. |
| `RuleSave.RulesStayUnique` | daemon/dal/device_permissions.cpp:106-134 | Over any history of such saves, each page loaded from the table before it, there is at most one rule per device. |
| `RuleSave.FindIsUnambiguous` | daemon/dal/device_permissions.cpp:106-120 | Over any history of such saves the first rule found for a device is the only one. |
| `RuleRuns.RequestUniqueIff` | daemon/dbus_methods.cpp:291-443 | For every request that goes through and every table: at most one rule per device is left if and only if the stored rules that are not deleted, in their updated form, name pairwise different devices; creations neither break nor repair it. |
| `RuleRuns.FreshPageIsSeparate` | alterator_usbmount/usbmount_ui/alt_usb_mount.js:1448-1482 | The request of a checked page loaded from the present table always meets that condition. |
| `RuleRuns.RequestsUniqueIff` | daemon/dbus_methods.cpp:291-443 | Over any sequence of requests that go through, from fresh or overtaken pages, the rules are unique at every point if and only if they were at the start and every request meets the condition. |
| `RuleRuns.FindIsOnlyIff` | daemon/dal/device_permissions.cpp:106-120 | The first rule found for a device is the only one, for all rules, if and only if there is at most one per device. |
| `RuleRuns.FinishedSavesUniqueIff` | daemon/dbus_methods.cpp:291-335 | Concurrent SaveRules calls leave at most one rule per device if and only if, in the order they were carried out, the last one meets the condition. |
| `RuleRuns.OvertakenPageDuplicates` | daemon/dbus_methods.cpp:384-443 | Two pages loaded from one table that both pass the duplicate check: one adds a device, the other, saved later, changes its rule to it, and two rules for the device are left. |
| `Endpoint.SanitizedIsSafe` | daemon/utils.cpp:401-411 | A sanitized text holds no unsafe character, only unsafe texts change, and sanitizing twice is sanitizing once. |
| `Endpoint.SanitizeMount` | daemon/utils.cpp:401-411 | The character loop computes the sanitized text. |
| `Endpoint.NamesBegin` | daemon/custom_mount.cpp:242-254 | The series of names as it begins and turns: base, base_0, base_2, base_9, base_10, base_111. |
| `Endpoint.NamesDiffer` | daemon/custom_mount.cpp:242-254 | No two names tried are equal: single digits differ at the end, later names grow. |
| `Endpoint.TriedCount` | daemon/custom_mount.cpp:242-254 | The first k probes try k names. |
| `Endpoint.FindEndpoint` | daemon/custom_mount.cpp:224-274 | With fewer than 2^32 occupied names the loop stops within one more probe than there are, at the first free name. |
| `Endpoint.FirstFreeIsUnique` | daemon/custom_mount.cpp:242-254 | The first free name is determined by the base and the occupied names. |
| `Endpoint.EndpointStaysBelow` | daemon/custom_mount.cpp:224-274 | The endpoint is the owner directory, one slash-free component, and not occupied. |
| `MountWorld.LastAtIsLatest` | daemon/custom_mount.cpp:276-322 | The visible mount at a path is the latest line with it. |
| `MountMeaning.FirstOfIsFirst` | daemon/custom_mount.cpp:324-350 | The mount an unmount goes for is the first line of the device. |
| `MountMeaning.RemoveDirIff` | daemon/custom_mount.cpp:399-408 | A directory is removed if and only if it is there, empty and no mount point, and nothing else changes. |
| `MountMeaning.TitleMeans` | daemon/custom_mount.cpp:230-241 | The label names the endpoint unless it is empty or its path exists, then the UUID, then "usb". |
| `MountMeaning.MakeEndpointMeans` | daemon/custom_mount.cpp:255-274 | Making an endpoint succeeds if and only if the directory is there or can be made and chown and chmod succeed; a directory it made stays. |
| `MountMeaning.UnMountUnlisted` | daemon/custom_mount.cpp:350-396 | From any state, unmounting a device that mtab does not list forgets its row with the least id and touches nothing else. |
| `MountMeaning.UnMountListed` | daemon/custom_mount.cpp:324-396 | From any state, a successful unmount detaches the mount at the directory of the first line of the device and drops the first row with that device, directory and type, and the directory only with such a row. |
| `MountMeaning.EventMeans` | daemon/udev_monitor.cpp:123-156 | Adding a supported block device with a rule mounts it, removing a recorded one unmounts it, a change of a recorded one reviews the mounts, and every other event does nothing. |
| `MountMeaning.RemovedByHand` | daemon/udev_monitor.cpp:123-156 | The remove event of a stick that was unmounted by hand forgets its row and touches nothing else. |
| `MountMeaning.NothingAbsent` | daemon/udev_monitor.cpp:222-257 | A review passes over snapshot entries that are present or have no name. |
| `MountAgreement.DetachIsExact` | daemon/custom_mount.cpp:355-372 | With distinct directories umount2 removes the chosen line and no other. |
| `MountAgreement.MountAgrees` | daemon/custom_mount.cpp:56-104 | Whatever the system answers, mounting keeps rows distinct and each matched by a mount of its device, directory and type. |
| `MountAgreement.UnMountAgreesIff` | daemon/custom_mount.cpp:324-397 | Whatever the system answers, unmounting keeps that agreement, if and only if it does not detach a mount recorded as "ntfs3". |
| `MountAgreement.ReviewAgrees` | daemon/utils.cpp:158-188 | Reviewing keeps that agreement, from unreadable mtab to failing directory removal. |
| `MountAgreement.ProcessDeviceAgreesIff` | daemon/udev_monitor.cpp:123-156 | With distinct mount directories an event keeps the agreement, whatever the system answers, if and only if it does not unmount a mount recorded as "ntfs3". |
| `MountAgreement.ProcessDeviceKeepsPlain` | daemon/udev_monitor.cpp:123-156 | While no device reports the type "ntfs3", no row holds it. |
| `MountTheorems.CreateThenDelete` | daemon/custom_mount.cpp:374-390 | Creating a new row, finding it and deleting it restores the table, ids included, even at the id wrap. |
| `MountTheorems.MountThenUnMountRestores` | daemon/custom_mount.cpp:276-390 | A successful mount, read-write or read-only, and a successful unmount restore mtab and table and remove the endpoint. |
| `MountTheorems.MountThenUnMountIff` | daemon/custom_mount.cpp:276-397 | From any state in agreement, mounting an unmounted device and unmounting it restores the table, and keeps the agreement, if and only if the device does not report the type "ntfs3". |
| `MountTheorems.FailedMountLeavesNothing` | daemon/custom_mount.cpp:276-322 | When both mount attempts fail nothing is recorded and no endpoint stays. |
| `MountTheorems.SweepIsSafe` | daemon/utils.cpp:158-188 | From any state a removed directory was empty and no mount point. |
| `MountTheorems.ReviewIsExact` | daemon/utils.cpp:158-188 | A review keeps exactly the live rows under their ids, removes exactly the listed empty unmounted directories, and a second review changes nothing. |
| `MountTheorems.OneRowPerDevice` | daemon/dal/mount_points.cpp:146-163 | With one mtab line per device there is one row per device. |
| `MountTheorems.UnMountRecorded` | daemon/custom_mount.cpp:324-397 | Unmounting a recorded device removes its row and no other. |
| `MountTheorems.UnMountAbsentIsExact` | daemon/udev_monitor.cpp:222-257 | The loop over the snapshot stays right while the table shrinks: exactly the absent devices met so far whose own unmount went through are gone. |
| `MountTheorems.SnapshotIsGood` | daemon/dal/mount_points.cpp:185-198 | The snapshot holds every row once and nothing else. |
| `MountTheorems.ReviewOfDevices` | daemon/udev_monitor.cpp:222-257 | Whatever the system answers to each unmount, exactly the rows mounted below the root whose device is present or could not be unmounted remain, untouched, each with its live mount; an unreadable mtab empties the table. |
| `MountTheorems.ReviewOfVanishedDevices` | daemon/udev_monitor.cpp:222-257 | If all unmounts succeed, exactly the rows of connected devices below the root remain. |
| `MountRuns.SharedEndpoint` | daemon/custom_mount.cpp:224-274 | A successful mount keeps mount directories distinct if and only if its endpoint was no mount point, and it may be one only when the file system there is blank. |
| `MountRuns.ApplyKeepsOneLineIff` | daemon/udev_monitor.cpp:259-274 | Start-up leaves one mount per device if and only if it nowhere mounts a mounted device again. |
| `MountRuns.ReadableMtabKeepsOneLine` | daemon/udev_monitor.cpp:259-274 | It never does while mtab can be read. |
| `MountRuns.StartUpKeepsOneLineIff` | daemon/udev_monitor.cpp:259-274 | Start-up leaves one mount per device, for all answers to its mounts, if and only if mtab opens at every mounted device that has a rule. |
| `MountRuns.UnreadableMtabRemounts` | daemon/utils.cpp:133-156 | A start with an unreadable mtab, which reads as one without mounts, mounts a mounted stick again. |
| `MountRuns.MountsOverBlank` | daemon/custom_mount.cpp:242-254 | In a sane state a mount point is only chosen as an endpoint when the file system on it is blank. |
| `MountRuns.BlankStickIsMountedOver` | daemon/custom_mount.cpp:224-274 | A sane state and an event that mounts over a mount point: a second stick with the UUID of a blank one. |
| `MountRuns.Ntfs3StickLeavesRow` | daemon/custom_mount.cpp:324-397 | From the empty state, a stick of type "ntfs3" plugged in and unmounted leaves a row without a mount. |
| `MountRuns.StepIsSaneIff` | daemon/udev_monitor.cpp:76-156 | An event, whatever the system answers, keeps agreement, distinct mount directories and existing endpoints if and only if it does not mount over a mount point and nobody else unmounts what is recorded. |
| `MountRuns.RunsStaySaneIff` | daemon/udev_monitor.cpp:76-156 | The same for every point of a whole run, with file systems filling and emptying and others mounting and unmounting anywhere meanwhile. |
| `MountRuns.ReviewRestoresIff` | daemon/utils.cpp:158-188 | From any distinct rows, a review that can read mtab restores the agreement if and only if the rows whose directory is a mount point still stand on their own mounts. |
| `MountRuns.HandUnMountIsHealed` | daemon/utils.cpp:158-188 | A stick unmounted by hand is put right by the next such review. |
| `MountRuns.FilledMountsDoNotStack` | daemon/custom_mount.cpp:242-254 | While every file system mounted below the root holds something, no event mounts over a mount point. |
| `MountRecords.StepRecordsIff` | daemon/udev_monitor.cpp:76-156 | An event of a sane run keeps a row for every mount below the root if and only if it is no review that cannot read mtab, an id is left for a new row, and others do not mount there. |
| `MountRecords.RunsStayRecordedIff` | daemon/udev_monitor.cpp:76-156 | The same for every point of a whole run. |
| `MountOverlap.UnstrandedRunAgrees` | daemon/udev_monitor.cpp:99-114 | A run of the two threads in which no step inserts a row whose mount is gone, nor detaches a mount whose row stays, leaves rows and mounts in agreement when both rest. |
| `OverlapRuns.OverlapIff` | daemon/udev_monitor.cpp:99-114 | With the review in a thread of its own, all runs of the two threads rest in agreement if and only if two overlaps cannot occur: a mount where the review is about to unmount, and the review choosing a mount that is not yet recorded. |
| `OverlapRuns.ApartNeverStrands` | daemon/udev_monitor.cpp:99-114 | In runs without these two no step does either, however else the threads overlap. |
| `OverlapRuns.ReviewOutrunsCreate` | daemon/udev_monitor.cpp:99-114 | A run with the second overlap alone: the review unmounts a replugged stick between its mount(2) and its row, and a row without a mount stays. |
| `OverlapRuns.ReviewUnMountsStranger` | daemon/udev_monitor.cpp:99-114 | A run with the first alone: between the review reading mtab and its umount2 a second device is mounted and recorded at that directory, and loses its mount. |
| `OverlapRuns.StaleReviewDropsRow` | daemon/udev_monitor.cpp:99-114 | A run with neither: a review that read mtab before a mount drops the row of that mount, so a mount without a row stays. |
| `OverlapRuns.SoloUnMount` | daemon/custom_mount.cpp:324-397 | The steps of an undisturbed unmount do to mounts and rows what the whole unmount does, for every answer of the system. |
| `OverlapRuns.SoloMount` | daemon/custom_mount.cpp:56-104 | The steps of an undisturbed mount do what the whole mount does. |
| `OverlapRuns.SoloReview` | daemon/utils.cpp:158-188 | The steps of an undisturbed review do to the rows what the whole review does. |
| `OverlapRuns.AbsentNamesMean` | daemon/udev_monitor.cpp:222-257 | A review lists exactly the named devices of its snapshot that are not present. |
| `MountDaemon.CustomMount.CreateMountEndpoint` | daemon/custom_mount.cpp:224-274 | Chooses the first free name, creates it if absent, and fails when a system call does. |
| `MountDaemon.CustomMount.Mount` | daemon/custom_mount.cpp:56-104 | The daemon's mount has the effect the mount theorems are about. |
| `MountDaemon.CustomMount.UnMount` | daemon/custom_mount.cpp:324-397 | The daemon's unmount has the effect the mount theorems are about. |
| `MountDaemon.UdevMonitor.ReviewMountPoints` | daemon/utils.cpp:158-188 | The daemon's review has the effect the mount theorems are about. |
| `MountDaemon.UdevMonitor.ReviewConnectedDevices` | daemon/udev_monitor.cpp:222-257 | So has its review of connected devices. |
| `MountDaemon.UdevMonitor.ProcessDevice` | daemon/udev_monitor.cpp:123-156 | So has its handling of a device event. |
| `MountDaemon.UdevMonitor.ApplyMountRulesIfNotMounted` | daemon/udev_monitor.cpp:259-274 | So has its pass over connected, unmounted devices. |
| `MountDaemon.UdevMonitor.StartUp` | daemon/udev_monitor.cpp:76-80 | So has the prologue of the monitor, with its two enumerations of the devices. |
| `LogPages.GetFromFile` | common/log_reader.cpp:46-74 | The loop over the lines computes the entries described next. |
| `LogPages.NumberedIsComplete` | common/log_reader.cpp:46-74 | The entries are exactly the lines that contain a filter, or all lines without filters, in order, each behind its number in brackets. |
| `LogPages.AllNumbered` | common/log_reader.cpp:46-74 | Without filters every line is an entry, under its own number. |
| `LogPages.NumberedFrom` | common/log_reader.cpp:46-74 | The k-th entry is the k-th selected line, with its own number. |
| `LogPages.GetByPage` | common/log_reader.cpp:87-126 | The clamped 32-bit index arithmetic and the copying loop give the page and page count the page laws are about. |
| `LogPages.PageIsSlice` | common/log_reader.cpp:87-126 | Within the signed range a page is the slice counted from the newest entry. |
| `LogPages.ExistingPageIff` | common/log_reader.cpp:87-126 | An existing page is that slice if and only if its end stays in the signed 32-bit range or wraps past the whole log. |
| `LogPages.PastEndPageIff` | common/log_reader.cpp:87-126 | A page past the end is empty, as it should be, if and only if the log is empty or its two 32-bit offsets do not wrap into the log. |
| `LogPages.WrappedPage` | common/log_reader.cpp:87-126 | One that does: page 2^31 of size 2 returns page 0. |
| `LogPages.PagesNumberIsCeiling` | common/log_reader.cpp:87-126 | The page count is the least number of pages that holds the log. |
| `LogPages.PagesPartitionTheLog` | common/log_reader.cpp:87-126 | The pages from last to first, joined, are the filtered log, each line once and in order. |
| `LogPages.PagesShowTheLog` | common/log_reader.cpp:46-126 | The pages of a file, joined from last to first, show exactly its matching lines, each once, in order, under its number. |
| `LogPages.PageLengths` | common/log_reader.cpp:87-126 | Every page but the oldest is full, and pages past the end are empty. |
| `MessageProtocol.Loop` | alterator_bindings/message_reader.cpp:39-96 | The line loop dispatches the messages the line grammar describes. |
| `MessageProtocol.ReadPrinted` | alterator_bindings/message_reader.cpp:39-96 | A printed message is dispatched as itself, and the rest is read from a clean state. |
| `MessageProtocol.MessagesRoundTrip` | alterator_bindings/message_reader.cpp:39-96 | A printed sequence of messages is dispatched as exactly that sequence, values with colons included. |
| `MessageProtocol.ParamMapHolds` | alterator_bindings/message_reader.cpp:39-96 | Every parameter of a message with distinct keys is in the map it is dispatched with. |
| `MessageProtocol.GarbageEndsReading` | alterator_bindings/message_reader.cpp:39-96 | Outside a message, a line without a begin marker ends the reading. |
| `MessageProtocol.EndCloses` | alterator_bindings/message_reader.cpp:39-96 | An end marker dispatches the message if and only if it has an action and objects, and starts afresh either way. |
| `MessageProtocol.OtherLineMeans` | alterator_bindings/message_reader.cpp:39-96 | A line that is no marker and no field gives a parameter named by the text before its first colon, unless the name is taken or there is no colon. |
| `MessageProtocol.NoEndNoMessage` | alterator_bindings/message_reader.cpp:39-96 | Without an end marker nothing is dispatched. |
| `MessageProtocol.PaddingIsIgnored` | alterator_bindings/message_reader.cpp:39-96 | White space around a line does not matter. |
| `HtmlCodec.HtmlEscapeLoop` | alterator_bindings/common_utils.cpp:183-202 | The loop over the escape map replaces each special character by its code. |
| `HtmlCodec.CodeIsNumber` | alterator_bindings/common_utils.cpp:183-202 | A code is the number of its character between "&#" and ";". |
| `HtmlCodec.EscapeJoins` | alterator_bindings/common_utils.cpp:183-202 | Escaping works character by character. |
| `HtmlCodec.EscapeOne` | alterator_bindings/common_utils.cpp:183-202 | The characters 9, 10, 34, 39 and 92 become their codes, and every other one stays. |
| `HtmlCodec.EscapedIsSafe` | alterator_bindings/common_utils.cpp:183-202 | No special character is left. |
| `HtmlCodec.NoNewMatch` | alterator_usbmount/usbmount_ui/alt_usb_mount.js:120-127 | Replacing one code never creates a match of another. |
| `HtmlCodec.UnEscapeIsDecode` | alterator_usbmount/usbmount_ui/alt_usb_mount.js:120-127 | The five global replacements in sequence are one left-to-right decoding. |
| `HtmlCodec.UnEscapeEscapeIff` | alterator_usbmount/usbmount_ui/alt_usb_mount.js:120-127 | Unescaping restores an escaped text if and only if the text holds none of the five codes. |
| `QuoteCodec.UnescapeEscapeAll` | alterator_bindings/common_utils.cpp:172-181 | Dropping the escaping backslashes restores every text. |
| `QuoteCodec.EscapeAllIsLiteral` | alterator_bindings/common_utils.cpp:80-86 | Every text, escaped and wrapped, is one closed literal. |
| `QuoteCodec.EscapeAllLoop` | alterator_bindings/common_utils.cpp:172-181 | The loop computes that escaping. |
| `QuoteCodec.EscapeAllJoins` | alterator_bindings/common_utils.cpp:172-181 | Escaping works character by character. |
| `QuoteCodec.EscapeAllOne` | alterator_bindings/common_utils.cpp:172-181 | A quote or a backslash gets a backslash in front, and every other character stays. |
| `QuoteCodec.EscapeQuotesLoop` | alterator_bindings/common_utils.cpp:161-170 | The loop that looks at its last output character computes the escaping below. |
| `QuoteCodec.EscapeQuotesAppends` | alterator_bindings/common_utils.cpp:161-170 | A further quote gets a backslash unless one precedes it, and every other character stays. |
| `QuoteCodec.EscapeQuotesIdempotent` | alterator_bindings/common_utils.cpp:161-170 | Escaping quotes twice is escaping them once. |
| `QuoteCodec.EscapersAgree` | alterator_bindings/common_utils.cpp:161-181 | On texts without backslashes the two escapers agree. |
| `QuoteCodec.EscapeQuotesIsLiteralIff` | alterator_bindings/common_utils.cpp:80-86 | A text escaped with EscapeQuotes and wrapped is one literal if and only if its backslashes pair up. |

## Left out

- D-Bus, systemd, polkit, udev enumeration and signal handling: only device records and lists of devices enter the model.
- mount, umount2, mkdir, chown, chmod, the directory iteration and reading /etc/mtab: their outcomes are answers of the environment, and `labelExists` is what fs::exists says about the raw label path.
- ACL editing and the creation of per-owner directories: one answer (`aclOk`) and one name (`owner`); below the owner directories the tree is a flat map of directories, without plain files in it.
- The text form of JSON: a value datatype with a reparse step for integer kinds stands for it; object members are unordered, and doubles are an `Other` value.
- Reading users and groups from the system: account lists are parameters. The JSON members of a saved form are assumed present and of the right type.
- A device id with non-hexadecimal characters: `dal::Device` throws there inside functions declared noexcept; device ids are taken as given.
- Threads that use a table with and without transactions at the same time, readers without a lock during a transaction, and a commit that cannot open its file while other threads run.
- A file open that fails in the protocol without transactions: `StoreProtocol` takes opens to succeed.
- Fairness of the locks: no run deadlocks, but a thread may wait for as long as the scheduler lets it.
- MessageProtocol.MessagesRoundTrip: gives a sufficient condition on the messages; among others it excludes a parameter key that repeats, of which the reader keeps the first value.
- LogPages.ExistingPageIff: where the index subtraction itself leaves the signed 32-bit range the source has no defined result, and that range is excluded.
- QuoteCodec.EscapeQuotesLoop: a text that starts with a quote makes the source read the last character of an empty string, which has no defined result, and is excluded.
- MountRuns.RunsStaySaneIff: takes each event and each review as one step, and assumes that no device reports the type `ntfs3`.
- MountRecords.RunsStayRecordedIff: the same, and assumes that devices have names.
- OverlapRuns.OverlapIff: leaves directories out, takes mount(2) to happen on a directory that is no mount point by a device that does not report `ntfs3`, and lets the review unmount whatever is on its list in any order of steps; events do not overlap each other, as in the daemon. For the other direction, a row for every mount, there is only a failing run.
- Two reviews at once, when one is not over as the next one starts ten minutes later: the model has one review thread.
- Tables.Table.Delete: a file that does not open when no transaction is open throws after the change in memory; the class methods take the open to succeed, and only `ProcessTransaction` has the other outcome.
- RuleSave.SaveKeepsRulesUnique: assumes that the page was loaded from the table it is saved against, and so do `RuleSave.RulesStayUnique` and `RuleSave.FindIsUnambiguous`; without that hypothesis uniqueness can fail, and `RuleRuns.RequestUniqueIff` has the exact condition.
- RuleSave.RulesStayUnique: see `RuleSave.SaveKeepsRulesUnique`.
- RuleSave.FindIsUnambiguous: see `RuleSave.SaveKeepsRulesUnique`.
- RulePatch.DbusMethods.PatchOriginal: for a known account sent for a rule whose user or group list is empty the source indexes the empty array, which has no defined result; the model has an error there.
- RulePatch.RequestGoesThroughIff: the same case counts as a request that does not go through.
- RuleSave.SaveRulesIsExact: assumes that the page was loaded from the present table, that edited cells are filled in and that their accounts exist, as the page's checks and menus arrange.
- Rendering and editing the form, the rest of the page script, style sheets, the Scheme backend, the log writer and everything under experimental and daemon/unused.
