# Melchior, modelled

Melchior has no server. Sessions find each other through a directory of sockets and notes, charge
shared ledgers, and talk over framed lines; what they promise comes from small algorithms that many
processes run at once. This project models nine of those and proves what they keep.

- **The tree of agents** — `Chains` (walks up the parent notes, rings allowed), `Walks` (the bounded
  climbs and counts), `Roster` and `Tiered` (a branch, nearest first; the whole listing as a tree),
  `Forest` (minting, coming up and grafting as atomic steps over whole runs), `Crew` and `Policy` (who
  belongs together and may reach whom), `Handover` and `Pending` (a graft with every effect a step of
  its own, between sessions that may be asking each other).
- **The socket lease** — `Leases`: bind, release and sweep, step by step over inodes.
- **The event queue** — `EventQueue`: lock-free emitters, one receiver, and counters that must add up.
- **The calendar** — `Calendar`, `Decimal`: dates from day numbers and the printed form of an instant
  (section 5.6 of RFC 3339; the calendar of its section 5.7 and Appendix C).
- **Money** — `Spending`, `RunLedger`, `Proxy`, `Sums`: a ledger of replaceable shares, all the asks of a
  run on one such, and an append-only log (`Sets` and `Options` are shared by all).
- **The fixtures** — `Encoder` and `BoundedMeter`: a printer of content blocks and an admission meter.
- **Inbox and rates** — `Inbox`, `RateWindow`, `Texts`: eviction in closed form and sliding windows.
- **The call line** — `Framing`, `CallLine`: framed bytes, and staying in step on a line that can be cut
  at any byte.
- **Names** — `Names`: 552 names and a search that misses none.

Protocols are state machines: a state, an enumerated `Step`, when a step is `Enabled`, and the state
`After` it. Every atomic operation of the program is a step, and anything may come between two of
them, so a claim over `Runs` is a claim over every interleaving. What the program does with objects
and loops is a class or a method proved against a function, and the claims are lemmas about that
function.

## What turned out not to hold

Where the program falls short of its own documentation, the model keeps what the program does, shows
a run or an input that goes wrong, and proves exactly when it does not.

- **Depth.** The guards read as though no session could have more than seven ancestors. A graft is
  checked against the height of the branch *listening* below the child, so a child minted six levels
  down and not yet up is not seen, and comes up with eight (`Forest.EightAncestorsHappen`). Eight is
  the true bound (`Forest.EveryRunIsAForest`); seven is kept exactly by the grafts over no such child
  (`Forest.SevenAncestors`).
- **Rings of two.** `src/main/adopting.rs` says two sessions taking each other on at once cannot both
  succeed, because each withdraws its own asking first. A session that asks the other *again*, after
  that withdrawal and before its note is written, undoes it, and both can succeed
  (`Handover.RingsHappen`). That is the only way: `Handover.AskingIsSafeUnlessHalfway`.
- **Longer rings.** That check looks for two only: three sessions that each ask the next, all checked
  before any note is written, end up in a ring with nobody careless (`Handover.RingsOfThreeHappen`). A
  ring is made exactly where a note is written for a session its new parent hangs under at that moment,
  which nothing checks again (`Handover.ForestExactly`).
- **The root above nine ancestors.** `root_of` stops at the ninth ancestor, so it names the root
  exactly for sessions with at most nine (`Walks.RootOfIsTop`); no reachable session has more than
  eight.
- **Relations on a ring of two** read Parent from both ends (`Policy.BothEndsAgree`).
- **Stamps** from the year 10000 on outgrow the fixed layout and read back to nothing
  (`Calendar.StampReadsBack`).
- **Breadth.** A hold on a minted child's name counts for five minutes, and a child that comes up after
  that is not stopped. So a session can have nine children (`Forest.NineChildrenHappen`); the bound of
  eight is kept by exactly the steps that are not such a late child of a parent with eight
  (`Forest.StepKeepsNarrow`).
- **The proxy's cap** is passed exactly when a settlement comes to more than its own reservation and
  everything still free under the cap at that moment (`Proxy.CapHoldsExactly`), which a provider's own
  figure can, by any amount (`Proxy.CapCanBePassed`).
- **The inbox** can lose messages. A row's text is cut to fit a page, but what the message is *about* is
  bounded nowhere. A row longer than a frame makes its page a refusal, at which the reader stops: that
  message and all behind it are never read (`Inbox.OneMessageHidesTheRest`). Everything is read if and
  only if no row is that long (`Inbox.InboxOf`).
- **Pages of a changing inbox.** A page is asked for by how many messages came before it, so where a full
  inbox puts one of those out meanwhile, the next message is passed over (`Inbox.AMessageIsMissed`;
  exactly when, `Inbox.ArrivalShifts`). An inbox that only grows is read whole (`Inbox.InboxOf`).
- **The run's ledger** is taken down, lock and all, when the session that began the run ends, whoever of
  the run is still asking, and under no lock. Then a charge can fail for not being in the ledger any
  more, and a cap already reached lets asks through again (`RunLedger.TakenDownBetween`). A charge fails
  exactly when more was lost than all the other asks have put in (`RunLedger.ChargeFailsExactly`), and
  the cap is held against what all have cost less what was lost (`RunLedger.LetThroughExactly`); while
  nothing is taken down, nothing is lost but what 64 bits do not hold (`RunLedger.LedgerIsTheSum`). With
  the lock gone two asks can also be at the file beside the ledger at once, and the ledger can end up no
  number, which refuses every ask (`RunLedger.LedgerCanBeUnreadable`).

## Model

| member | source | states |
|---|---|---|
| `Forest.EveryRunIsAForest` | src/directory/pending.rs:97-133 | at every point of every run of beginning, minting, coming up (in time or after the hold has lapsed), grafting and ending: no walk up the notes is a ring, nobody has more than 8 ancestors, and children running and coming pass 8 only where a child came up late to a parent of eight |
| `Forest.SevenAncestors` | src/directory/pending.rs:118-125 | the bound of 7 ancestors is kept by every step exactly when it is not a graft over a branch with a child still coming up six levels down |
| `Forest.EighthAncestor` | src/directory.rs:102-121 | from every such graft the child that was coming comes up with 8 ancestors: the height the guard reads counts only sessions that already listen |
| `Forest.EightAncestorsHappen` | src/answering.rs:252-263 | a run from nothing that ends with a session of 8 ancestors |
| `Forest.CarefulRuns` | src/directory/pending.rs:97-133 | a run none of whose grafts does that never has anybody, up or coming, with more than 7 ancestors |
| `Forest.StepKeepsInv` | src/answering.rs:252-272 | every step keeps forest, depth and run bookkeeping together |
| `Forest.StepKeepsNarrow` | src/answering.rs:264-272 | every step keeps the bound of 8 children, running and coming, if and only if it is not a child coming up after its hold lapsed to a parent that has 8 already |
| `Forest.UncrowdedRuns` | src/directory/pending.rs:125-131 | a run without such a step never has a session with more than 8 children, running and coming |
| `Forest.NineChildrenHappen` | src/directory/reserved.rs:36-44 | a run from nothing that ends with a session of nine children: eight named and up while a first one's hold lapses, and then that one |
| `Forest.AdoptableReadsTheListing` | src/directory/pending.rs:97-133 | the guard as the program works it out, by its recursion for the height and a pass for the children over any listing of who listens, gives what the guard stated on the notes gives |
| `Forest.AdoptableExactly` | src/directory/pending.rs:97-133 | the guard lets a graft through if and only if the two differ, both are mains, nobody hangs seven or eight levels under the one taken on, and the other has at most seven children; otherwise the first reason in order, with its figures |
| `Forest.AdoptEnabled` | src/directory/pending.rs:97-133 | of two mains that are up: exactly that, children running and coming |
| `Forest.MintExactly` | src/answering.rs:252-290 | a session with d ancestors may name a child if and only if d is at most six and it has at most seven children, running and coming; the child comes up under it, one level down, in its run |
| `Forest.Lapsing` | src/directory/reserved.rs:36-44 | a lapsed hold only stops counting: its child may still come up |
| `Forest.NeverComing` | src/directory/reserved.rs:46-65 | the name of a child that then never comes is free again |
| `Forest.EndForgets` | src/directory.rs:377-386 | whoever ends is gone with its note and its run, and nothing of anybody else's is |
| `Forest.GraftIsShallow` | src/directory/pending.rs:118-125 | what may be taken on hangs at most 6 levels deep under the main that is taken on |
| `Forest.GraftDepth` | src/directory.rs:391-393 | writing the note of a graft moves the whole branch one level down and nobody else |
| `Chains.HangKeepsForest` | src/directory.rs:391-393 | writing any parent note, a first or another, keeps a forest a forest if and only if the parent is not below the child |
| `Chains.RingNeverEnds` | src/directory.rs:62-71 | a session on a ring of notes has no walk that ends |
| `Chains.DepthAfterCut` | src/directory.rs:377-381 | taking a session's own note down only shortens walks, and those exactly to it |
| `Walks.DepthOf` | src/directory.rs:132-146 | the loop computes the capped count, on rings too |
| `Walks.CountedIsDepth` | src/directory.rs:132-146 | the count is the true number of ancestors capped at 8, and 8 for whoever is caught in a ring |
| `Walks.RootOfLoop` | src/directory.rs:73-90 | the loop over `seen` and `current` computes the capped, ring-safe climb |
| `Walks.RootOfIsTop` | src/directory.rs:73-90 | the climb answers with the true root if and only if the session has at most 9 ancestors; otherwise with its ninth |
| `Walks.ClimbedIsAbove` | src/directory.rs:73-90 | on any notes, rings included, what the climb answers with is above where it started |
| `Walks.DeepestIsTallest` | src/directory.rs:99-121 | for any listing with distinct ids, `deepest` is the length of the longest chain of listening sessions below, capped at its guard |
| `Roster.Under` | src/directory/sessions.rs:180-197 | for any notes with distinct ids, rings included: exactly the sessions below `id`, each once, never `id`, nearest first, siblings in id order |
| `Roster.Sorted` | src/directory/sessions.rs:199-207 | what `born_to` filters and sorts is exactly who names the session as its parent |
| `Roster.SortedInOrder` | src/directory/sessions.rs:205-205 | and that in id order, nobody twice |
| `Tiered.TieredList` | src/directory/sessions.rs:136-162 | the listing is the tree of everybody under a root laid out depth first, then whoever a ring swallowed, at depth 0 (predicate `Tiers`) |
| `Tiered.Descend` | src/directory/sessions.rs:164-178 | a descent adds exactly the unseen subtree, as one run, at true depths |
| `Tiered.LineKind` | src/directory/sessions.rs:136-162 | a line is in the tree exactly when its walk up the listing ends; the others stand at depth 0 |
| `Tiered.NobodyTwice` | src/directory/sessions.rs:136-162 | no session is listed twice |
| `Tiered.NobodyLeftOut` | src/directory/sessions.rs:140-142 | no note can make a session invisible |
| `Tiered.IndentationIsParentage` | src/directory/sessions.rs:136-138 | the indentation alone gives the tree back: a line's parent is the nearest line above one step less deep, and everything between hangs under it |
| `Crew.OneRootOneTree` | src/policy.rs:144-150 | in every reachable state two sessions read one `tree_root` if and only if they hang under one top, though born runs never change |
| `Crew.CrewIsTheTree` | src/directory/sessions.rs:123-134 | a crew is exactly the tree its member hangs in |
| `Crew.GraftJoinsCrews` | src/directory/sessions.rs:123-134 | a graft makes one crew of two and leaves every other as it was |
| `Crew.BothEndsInARun` | src/policy.rs:207-239 | in every reachable state Parent and Child are converses, and a session is parent, child, sibling or kin exactly when it is of the same tree |
| `Policy.BothEndsAgree` | src/policy.rs:207-239 | for any two sessions the spawn link reads the same from both ends exactly when the two are not a ring of two; Sibling, Kin, Myself and Elsewhere are symmetric |
| `Policy.OnlyTheParentStops` | src/policy.rs:248-266 | stopping takes being the session the target's note names, and never works both ways |
| `Policy.ReachExactly` | src/policy.rs:207-266 | who may be asked or told, without relations: of one project, and either linked, the same, of one parent or tree under a setting wider than mains, two mains of different trees, or anybody under project |
| `Policy.StopExactly` | src/policy.rs:248-255 | who may be stopped: exactly by the parent it names, but for a ring of two |
| `Policy.FarRelations` | src/policy.rs:222-239 | off a link, sibling, kin, root and cousin are decided by the parent shared, the tree shared and whether the other is a main |
| `Policy.TreeOf` | src/policy.rs:130-151 | the tree a session is of: the top found, else the run it was born in, else its own |
| `Policy.SettingsOnlyOpen` | src/policy.rs:248-266 | a looser setting only adds reach and never widens who may stop |
| `Handover.NeverEachOthersParent` | src/main/adopting.rs:39-63 | for every interleaving of asking, arriving, accepting, withdrawing, checking, consuming, checking again, writing, failing, coming up, dying at any point and being swept: no two sessions end up each other's parent, so long as nobody asks a session it is half way through taking on |
| `Handover.AskingIsSafeUnlessHalfway` | src/main/adopting.rs:45-47 | and that condition is exact: from any state so reached, an asking can be followed by a ring of the two if and only if it is made half way |
| `Handover.AdoptionRuns` | src/main/adopting.rs:39-63 | with nothing in between, an asking of one main by another ends with the asker its child, the asking gone and nothing else changed |
| `Handover.CheckedEachTime` | src/directory/pending.rs:97-133 | at each of the three checks both still answer to nobody, or it goes no further |
| `Handover.FailedComesToNothing` | src/main/adopting.rs:39-63 | a request that fails is never written, and leaves note and asking as they were |
| `Handover.DeadAndSwept` | src/directory.rs:526-558 | a session dead and swept has no note and no asking and takes nobody on; everybody else's stands |
| `Handover.ChildComesUp` | src/directory/pending.rs:97-112 | a child that comes up answers to who named it, and can neither take a main on nor be taken on |
| `Handover.RingsHappen` | src/directory/pending.rs:34-53 | a whole run from an empty directory that ends in a ring of two |
| `Handover.RingsOfThreeHappen` | src/directory/pending.rs:97-133 | a whole run from an empty directory, nobody asking anybody it is half way through taking on, that ends in a ring of three |
| `Handover.ForestExactly` | src/directory/pending.rs:113-115 | over every run: the notes are free of rings at every point if and only if none is written for a session its new parent hangs under at that moment |
| `Handover.KeepsInv` | src/directory/pending.rs:62-89 | every step but such an asking keeps the invariant the claim rests on |
| `Handover.KeepsOneClose` | src/answering/taking.rs:52-74 | of two opposite requests never both are between their last check and their note |
| `Handover.KeepsWithdrew` | src/directory/pending.rs:84-89 | whoever is part way through taking somebody on is not itself asking that one |
| `Handover.StaysDead` | src/directory/pending.rs:62-83 | a request whose nonce is no longer the one on the note never comes back to life |
| `Pending.NoteReadsBack` | src/directory/pending.rs:34-60 | a note reads back to what was asked exactly when both its lines are whole trimmed lines |
| `Texts.TrimExactly` | src/directory/pending.rs:48-60 | a trimmed line is the middle between two runs of white space, and neither starts nor ends with any |
| `Pending.Note.Consume` | src/directory/pending.rs:60-83 | taken exactly by the session and nonce that were asked for; any other answer leaves it as it was, and once taken no answer at all can take it again |
| `Pending.Note.Withdraw` | src/directory/pending.rs:84-89 | only an asking of that very session is withdrawn, and afterwards none of it stands |
| `Pending.Note.Ask` | src/directory/pending.rs:30-47 | an asking replaces any earlier one |
| `Leases.EveryLeaseIsWhole` | src/serving/binding.rs:48-89 | in every reachable state a lease not given back is named by the path, socket and lock both, holds the lock, and no other lease holds the lock the path names |
| `Leases.OthersLeaveALease` | src/directory.rs:526-558 | whatever binds, sweeps, releases, deaths and closed listeners do, at any interleaving, a lease stays whole with the same two inodes until its own holder gives it back or drops it |
| `Leases.ReleaseTakesItsOwn` | src/serving/binding.rs:18-39 | even where an outsider removes the socket or the lock at any point, a release unlinks only the inodes of its own lease |
| `Leases.ReleaseLeavesNothing` | src/serving/binding.rs:18-39 | in every run, when a release is done the path names neither the socket nor the lock of its lease any more; the lock not even where an outsider got in the way |
| `Leases.ReleaseRuns` | src/serving/binding.rs:18-39 | from any lease that stands a release can run to its end, and leaves both names free and nothing else changed |
| `Leases.SweepRuns` | src/directory.rs:526-558 | a sweep of a dead session's path can run to its end, with the lock there or gone, and leaves both names free and nothing else changed |
| `Leases.SweepGoesOn` | src/directory.rs:526-558 | a sweep holding the lock it opened goes on to its end also where an outsider took the lock down meanwhile, and lets it go |
| `Leases.ChangedLockStopsABind` | src/places/locking.rs:70-108 | a bind whose lock the path no longer names can only fail, and lets that lock go |
| `Leases.ReleasedOnce` | src/serving/binding.rs:19-25 | a repeated release does nothing, and no lease's release ever takes the directory twice |
| `Leases.NothingLiveIsUnlinked` | src/serving/binding.rs:64-70 | no bind and no sweep unlinks a socket anything answers on |
| `Leases.LeaseShutsOut` | src/places/locking.rs:70-108 | while a lease stands no other bind or sweep holds a lock of the path, or can come to |
| `Leases.BindAfterADeath` | src/serving/binding.rs:48-89 | a session that died holding its path keeps nobody out: the next bind comes up listening, clearing the dead socket |
| `Leases.DeathThenBind` | src/serving/binding.rs:48-89 | a session dies holding its path, its listener closing and its locks going with it, and the next session binds the path |
| `Leases.KeepsInv` | src/places/locking.rs:32-115 | every step of bind, sweep and release keeps the invariant the claims rest on |
| `EventQueue.ExactAccounting` | src/events/mod.rs:141-195 | for every interleaving: once the receiver is closed and no emitter is active, attempts = dequeued + abandoned + full + closed + encoding + exhausted, with abandoned exactly what is left in the channel |
| `EventQueue.CountedByCause` | src/events/mod.rs:141-195 | over every run and for each cause: what is counted under it, and about to be, is exactly the steps of the run that lost an attempt so (full: a send on a connected channel of 256; encoding: a failed encoding; closed: a look after the close or a send after the disconnect; exhausted: the rest); once closed and idle each counter says exactly how many |
| `EventQueue.ReceiverDid` | src/events/mod.rs:83-95 | closed and disconnected are what the run has done, and as many events are received as were taken |
| `EventQueue.ReportWhileOpen` | src/events/mod.rs:60-76 | a report before the close says nothing is abandoned, and each loss under its own name |
| `EventQueue.NeverWaits` | src/events/mod.rs:141-195 | from every reachable state any emitter comes to its end in at most six steps of its own, whatever the others are at, and disturbs none of them |
| `EventQueue.QuietCanCome` | src/events/forwarding.rs:95-119 | and the moment the accounting is read at can be come to |
| `EventQueue.AnybodyAnytime` | src/events/mod.rs:141-195 | an emitter may begin at any moment, and the receiver go at any moment between two takings, whatever is in the channel |
| `EventQueue.NumbersAreUnique` | src/events/mod.rs:154-162 | no two events that ever went into the channel share a sequence number, and it never holds more than 256 |
| `EventQueue.ReceivedInOrder` | src/events/mod.rs:83-89 | the receiver gets events in the order they went in |
| `EventQueue.QuietForGood` | src/events/forwarding.rs:95-119 | after that moment no later emitter changes what was received, abandoned, full or encoding |
| `EventQueue.ReportIsBetween` | src/events/forwarding.rs:102-107 | the counters as `finish` loads them, one at a time with emitters still coming, cover every attempt made before `active` read zero and none not made by the last load |
| `EventQueue.ReceivedBeforeCounted` | src/events/mod.rs:60-69 | a run in which dequeued passes enqueued for a while, which is what the saturating difference is for |
| `EventQueue.KeepsAccounted` | src/events/mod.rs:197-216 | every step keeps every attempt counted once: under way, turned away, or in one counter |
| `EventQueue.KeepsNumbersHeld` | src/events/mod.rs:154-162 | a sequence number held by an emitter is not in the channel and is held by no other |
| `EventQueue.Encoded.Write` | src/events/mod.rs:223-233 | a write takes all of its bytes or none, exactly when they fit |
| `EventQueue.Encoded.WriteAll` | src/events/mod.rs:176-185 | an event fits exactly when its whole encoding does, however the encoder cuts it up |
| `Calendar.CivilOfTomorrow` | src/noted.rs:116-131 | for every integer day, the next day's date is the Gregorian day after it |
| `Calendar.CivilCountsDays` | src/noted.rs:116-131 | the closed form equals counting days one at a time from 1970-01-01, both ways |
| `Calendar.CivilIsInjective` | src/noted.rs:116-131 | no two days have one date |
| `Calendar.CivilIsADate` | src/noted.rs:116-131 | every result is a date of the calendar, and its day number is the day |
| `Calendar.CivilUndoesDayNumber` | src/noted.rs:116-131 | and every date of the calendar is the result of its day number |
| `Calendar.NextDayNumber` | src/noted.rs:116-131 | the independent day number grows by one from each date to the next |
| `Calendar.StampReadsBack` | src/noted.rs:101-114 | what is printed for an instant reads back to that millisecond if and only if it is before the year 10000 |
| `RunLedger.LedgerIsWhatIsLeft` | src/mind/spending.rs:128-155 | over any interleaving of asks starting, charging, failing and dying, the ledger, its lock and the file beside it being taken down at any point: so long as no two asks have the file beside it open, the ledger is a number, exactly the sum of every ask's latest charge, the dead included, less what was lost (what was taken down, what a rename overwrote that its ask had not read, what 64 bits do not hold) |
| `RunLedger.LedgerSinceTheClose` | src/mind/spending.rs:149-155 | taken down only while no ask has the lock open, the ledger is exactly what has been put in since, until that has once come to `u64::MAX`, and no two asks ever have the file beside it open |
| `RunLedger.LedgerIsTheSum` | src/mind/spending.rs:128-147 | while nothing is taken down, the ledger is exactly the sum of every ask's latest charge, the dead included, until that has once come to `u64::MAX`, and `u64::MAX` from then on |
| `RunLedger.ChargeFailsExactly` | src/mind/spending.rs:131-138 | `checked_sub` fails if and only if more has been lost from the ledger than all the other asks have put in |
| `RunLedger.QuietChargeFailsExactly` | src/mind/spending.rs:131-138 | taken down only while no ask has the lock open: it fails if and only if the asks together have since put in less than it takes back |
| `RunLedger.AlwaysContainsTheCharge` | src/mind/spending.rs:131-138 | while nothing is taken down it never fails |
| `RunLedger.ChargeRuns` | src/mind/spending.rs:128-147 | from any state in which nobody is at the ledger, an ask whose charge it still contains can charge anew: the ledger moves by just the difference, capped at 64 bits, and nothing else changes |
| `RunLedger.LocksAreLetGo` | src/mind/spending.rs:161-177 | over every run an ask that fails, dies or is done lets its lock go: one that nobody alive is at work under can be taken |
| `RunLedger.TakenDown` | src/mind/spending.rs:149-155 | taken down, the ledger says nought, a lock is still to be made, and an ask about to rename has failed uncharged |
| `RunLedger.OverKeepsTheRest` | src/mind/spending.rs:139-145 | what is written stands over what another ask had put there and leaves what was longer |
| `RunLedger.LetThroughExactly` | src/mind/spending.rs:49-61 | whatever is taken down: an ask is let through if and only if there is no cap, or all the run's asks together, less what was lost, are below it |
| `RunLedger.AdmittedBelowTheCap` | src/mind/spending.rs:49-61 | while nothing is taken down: if and only if there is no cap, or they are below it and always were below what 64 bits hold |
| `RunLedger.TakenDownBetween` | src/main.rs:600-605 | for any two charges of an ask, a run in which the ledger is taken down between them: the second fails, and every cap the first had reached lets asks through again |
| `RunLedger.LedgerCanBeUnreadable` | src/mind/spending.rs:161-177 | for any two charges, a run in which two asks hold two locks of one ledger, the ledger ends up no number, and every ask under any cap is refused |
| `RunLedger.KeepsWhole` | src/mind/spending.rs:128-177 | every step, the taking down included, keeps ledger, meters and the file beside it in agreement, unless it opens that file under another ask's hands |
| `RunLedger.KeepsOrderly` | src/mind/spending.rs:161-177 | and, but for taking something down while an ask has the lock open, keeps the lock to one ask and what it read current |
| `Spending.Ledger.Replace` | src/mind/spending.rs:128-147 | a replacement changes the file to the exact new total or not at all |
| `Spending.Meter.HeardObserved` | src/mind/spending.rs:255-276 | a changed charge is settled if and only if the lock and the rename were had and the ledger is readable and still contains the old one; then the file holds the total less that plus the new, capped at 64 bits and staying there; otherwise neither moves, and hearing the same again moves neither |
| `Spending.LineReadsBack` | src/mind/spending.rs:191-221 | a total written is the total read |
| `Spending.TotalExactly` | src/mind/spending.rs:191-221 | a file says a total if and only if it is at most 64 long and, between white space, digits after at most one plus sign of a number of 64 bits |
| `Spending.DollarsReadBack` | src/mind/spending.rs:63-73 | an amount shown reads back to the millionth, though its trailing zeros are cut |
| `Spending.ShownKeepsTheValue` | src/mind/spending.rs:64-71 | between two and six digits are shown, and none past the second is a trailing zero |
| `Proxy.ReadCommitted` | examples/metered-proxy.rs:41-78 | the one pass over the log finds what the log means (each row counts until superseded by the rows its rule names), and stops exactly where a sum along the way does not fit 64 bits |
| `Proxy.LastIsCounted` | examples/metered-proxy.rs:70-73 | what a correction takes back is always within what was settled: `.min(settled)` never decides |
| `Proxy.ReservesAppend` | examples/metered-proxy.rs:62-68 | one more row adds its reservation and takes the place of exactly the one its id has open |
| `Proxy.PaymentsAppend` | examples/metered-proxy.rs:65-73 | one more row adds its payment, and a correction takes back exactly its id's last |
| `Proxy.StepPassesExactly` | examples/metered-proxy.rs:80-119 | from within the cap, a step leaves what is committed within it if and only if it is not a settlement for more than its own reservation and all that was still free |
| `Proxy.CapHoldsExactly` | examples/metered-proxy.rs:80-119 | over any interleaving of reserve, settle and die in flight with fresh ids: within the cap at every point if and only if no settlement on the way did that |
| `Proxy.CapHolds` | examples/metered-proxy.rs:80-119 | and in every run what is committed is at most the cap and what settlements have gone over their own reservations |
| `Proxy.CapCanBePassed` | examples/metered-proxy.rs:179-184 | by any excess there is a run that passes it by just that: a provider's own figure is charged whatever was reserved |
| `Proxy.ReservesExactly` | examples/metered-proxy.rs:80-105 | a request under a new id is let through if and only if what it reserves fits under the cap beside all that is committed |
| `Proxy.DeadStaysReserved` | examples/metered-proxy.rs:41-46 | one that dies in flight stays counted at its reservation over every run after it |
| `Proxy.ReservationCovers` | examples/metered-proxy.rs:29-39 | what is reserved is the least that covers every byte and every token that may be asked for, and there is none only where that does not fit 64 bits |
| `Proxy.ChargedExactly` | examples/metered-proxy.rs:172-197 | the provider's own figure; else the least that covers the tokens it counted, capped at 64 bits; else the reservation, and nothing for a refusal without a word of usage |
| `Proxy.ChargedWithinReservation` | examples/metered-proxy.rs:29-39 | a token-priced charge is at most the reservation when the counts are within the request |
| `Encoder.StreamReadsBack` | examples/fake-provider/anthropic.rs:160-200 | what a legal turn streams is read to the last frame by a strict reader (blocks numbered without a gap, one open at a time, never two of a kind in a row, no thinking after its signature, nothing after the stop), which gets the turn's events back; a turn that validates never fails in the stream |
| `Encoder.FinishReadsBack` | examples/fake-provider/anthropic.rs:116-128 | a finished turn is read to have finished with end_turn, tool_use or max_tokens, exactly as the name it gave means, and no other name is accepted |
| `Encoder.RefusedFor` | examples/fake-provider/anthropic.rs:63-137 | what may not follow is refused for its own reason |
| `Encoder.AcceptsExactly` | examples/fake-provider/anthropic.rs:63-137 | the encoder accepts exactly the turns that are legal event by event: a known finish only at the end, a signature only straight after thinking or a signature, no thinking straight after a signature, no counts |
| `Encoder.ValidatesExactly` | examples/fake-provider/anthropic.rs:140-154 | validation passes exactly when what comes before the drop is legal and the turn drops or finishes |
| `Encoder.ReadsEvent` | examples/fake-provider/anthropic.rs:63-137 | one event's frames read back to that event and leave printer and reader at the same place |
| `Encoder.Printer.Event` | examples/fake-provider/anthropic.rs:63-137 | the method prints what the specification says; a refused event prints nothing and changes no field |
| `Encoder.Printer.Block` | examples/fake-provider/anthropic.rs:46-61 | afterwards exactly this kind is open; a block of the kind already open prints nothing and keeps its number and signature; any other is unsigned and numbered one past the block it closed, or where the count stood with none open |
| `Encoder.Validate` | examples/fake-provider/anthropic.rs:140-154 | the loop decides what the specification says, stopping at the first drop |
| `Encoder.CutAt` | examples/fake-provider/anthropic.rs:178-181 | the cut is just past the first byte beyond ASCII, or in the middle |
| `Encoder.SplitInTwo` | examples/fake-provider/anthropic.rs:175-192 | the two parts join to the whole, neither is empty, and the cut falls inside the first character that is not ASCII: the split never fails |
| `Encoder.RenderReadsBack` | examples/fake-provider/anthropic.rs:156-158 | a reader of lines gets an event's name and data back from what it is sent as, whatever follows |
| `Encoder.RenderedReadsBack` | examples/fake-provider/anthropic.rs:175-177 | and any number of them sent end to end |
| `BoundedMeter.EveryRunIsBounded` | examples/fake-provider/bounded.rs:181-243 | for every interleaving of connections, those closing before their first byte too: admitted within the limit, under distinct numbers from one on; captured plus outstanding within reserved within the limit; each attempt's body on record at most once; responses at most admitted |
| `BoundedMeter.TerminalRowFits` | examples/fake-provider/bounded.rs:157-175 | whatever was journalled, a terminal row within the bound of one row fits |
| `BoundedMeter.VerdictExactly` | examples/fake-provider/bounded.rs:378-394 | in every reachable state the verdict is STOPPED if and only if there was no fault, no rejection and no failure, and as many were answered as admitted |
| `BoundedMeter.StoppedMeansClean` | examples/fake-provider/bounded.rs:378-394 | a run ends in STOPPED if and only if its terminal row could be written, nothing failed, nobody was turned away, and every admitted attempt was recorded and answered; and then every byte reserved was captured |
| `BoundedMeter.ACleanRunStops` | examples/fake-provider/bounded.rs:277-343 | there is such a run, for any limits and any body that fits them |
| `BoundedMeter.GoesOnExactly` | examples/fake-provider/bounded.rs:277-343 | a connection goes on exactly where the meter grants what it asks, and otherwise has failed |
| `BoundedMeter.CapturesExactly` | examples/fake-provider/bounded.rs:219-237 | and its body is taken exactly at the size reserved, recorded and journalled |
| `BoundedMeter.EndsExactly` | examples/fake-provider/bounded.rs:345-372 | no more are accepted exactly from when a failed connection is found or the program is stopped, and that failure is the run's |
| `BoundedMeter.FailedForGood` | examples/fake-provider/bounded.rs:345-372 | and stays so however the run goes on |
| `BoundedMeter.CanAlwaysFinish` | examples/fake-provider/bounded.rs:372-377 | the run can then always be brought to its terminal row, whoever is left being aborted |
| `BoundedMeter.ReasonExactly` | examples/fake-provider/bounded.rs:378-394 | the reason on that row: the fault, else that somebody was turned away, else the failure, else that somebody was not answered, else stopped |
| `BoundedMeter.AcceptedExactly` | examples/fake-provider/bounded.rs:345-372 | a connection is accepted exactly while fewer than 16 are worked on |
| `BoundedMeter.SixteenAtOnce` | examples/fake-provider/bounded.rs:345-372 | and never are more, over every run |
| `BoundedMeter.KeepsInv` | examples/fake-provider/bounded.rs:277-343 | every step of every connection keeps the invariant the claims rest on |
| `BoundedMeter.Meter.Event` | examples/fake-provider/bounded.rs:157-175 | journalled if and only if it is at most 1 KiB, leaves 127 KiB (128 for the terminal row) and is written; the book stays sound; either counted in the journal with the fault as it was, or refused with the very fault it leaves |
| `BoundedMeter.Meter.Reserve` | examples/fake-provider/bounded.rs:181-191 | answered if and only if nothing is at fault and its row fits: with the next number below the limit, and turned away and counted at it; an error is the fault on the book; the book stays sound |
| `BoundedMeter.Meter.ReserveCapture` | examples/fake-provider/bounded.rs:193-217 | granted if and only if nothing is at fault, the attempt was admitted and has reserved nothing yet, and the body with its newline fits what is left and its row the journal; turned down only where it would pass the limit, with nothing reserved and that fault left; the book stays sound |
| `BoundedMeter.Meter.Capture` | examples/fake-provider/bounded.rs:219-237 | succeeds if and only if nothing is at fault, that very size is reserved, and body and row are written: one more body on record, and nothing that could be captured again; the book stays sound whatever goes wrong |
| `BoundedMeter.Meter.Respond` | examples/fake-provider/bounded.rs:239-243 | a response said to be counted was, with nothing at fault; after a fault nothing changes; the book stays sound |
| `BoundedMeter.SoundCapture` | examples/fake-provider/bounded.rs:219-237 | a capture, failed or not, keeps bounds, balance and once-each |
| `Inbox.InboxIsTheShare` | src/answering/keeping.rs:13-24 | for every history from empty, the inbox is the history in order cut to its newest min(50, I) interrupting messages and the newest of the others that fit beside them |
| `Inbox.KeptIsTheShare` | src/answering/keeping.rs:13-24 | one arrival, one eviction, keeps that so |
| `Inbox.NewestLength` | src/answering/keeping.rs:9-11 | how many of each kind that is |
| `Inbox.Box.Keep` | src/answering/keeping.rs:15-24 | the push and the eviction loop do what the specification says, and never leave more than 50 |
| `Inbox.Box.Consume` | src/answering/keeping.rs:26-35 | by id, exactly those not read stay, each as often as before; else the newest of so many as still wait; else nothing changes |
| `Inbox.UnreadStay` | src/answering/keeping.rs:26-31 | exactly those whose id was not read stay |
| `Inbox.UnreadInOrder` | src/answering/keeping.rs:26-31 | and in the order they were in |
| `Inbox.CriesForHelp` | src/wire.rs:249-251 | which messages interrupt, by the name they go by |
| `Inbox.RowIs` | src/answering/keeping.rs:72-85 | a row that would not fit alone keeps the first characters of its text, an eighth as many as the page has bytes, is marked so, and is otherwise the message; any other is the message as it is |
| `Inbox.CharBytesExactly` | src/answering/keeping.rs:72-74 | what a character takes in a row is its JSON escape where it has one, and its UTF-8 length otherwise (section 7 of RFC 8259, section 3 of RFC 3629) |
| `Inbox.Paged` | src/answering/keeping.rs:66-93 | a page is the next rows in order, never empty while any are left; over its bytes if and only if its first row alone is, even with its text cut, and then that row is the page |
| `Inbox.PageReply` | src/serving/talking.rs:167-174 | a page is answered by a refusal if and only if its first row, text cut, passes a frame; otherwise its rows go out |
| `Inbox.InboxOf` | src/directory.rs:175-208 | reading pages until an empty or a refused one, whatever happens meanwhile, gives each row from its place in the inbox its page was read from; of an inbox that only grows, exactly the messages before the first whose row passes a frame, each once and in order; so all of them if and only if there is no such message |
| `Inbox.ArrivalShifts` | src/answering/keeping.rs:15-24 | at a full inbox, one arrival between two pages passes over the first unread message exactly when the message put out is among those read |
| `Inbox.AMessageIsMissed` | src/directory.rs:187-207 | an inbox of rows that all fit, and one arrival between the first page and the next, for which no reading gives the second message, though it was there all along |
| `Inbox.OneMessageHidesTheRest` | src/answering.rs:323-352 | a message whose `tell` just fits a frame and whose row fits none: it hides itself and everything behind it |
| `RateWindow.HearingIsCapped` | src/answering/keeping.rs:46-64 | over every call history with a clock that does not go back: at most 24 taken from a sender in any minute, and the next refused if and only if 24 were taken in the minute before it |
| `RateWindow.SendingIsCapped` | src/directory/sending.rs:79-120 | over every sequential history, through the written and re-read note: of what is sent while the session's own socket answers, at most 24 in any minute and never one mark twice; refused as a repeat, or as one too many, exactly when those were sent; while it does not answer nothing is refused and nothing counted |
| `RateWindow.NoteReadsBack` | src/directory/sending.rs:113-143 | the note reads back to the entries it was written from |
| `RateWindow.JunkIsPassedOver` | src/directory/sending.rs:132-143 | a line that says nothing is passed over, wherever it stands |
| `RateWindow.SpacedIsCapped` | src/directory/sending.rs:18-22 | times in order hold at most 24 in every window if and only if any twenty-five of them span one |
| `RateWindow.Hearing.HeardFrom` | src/answering/keeping.rs:46-64 | taken exactly while fewer than 24 are of the last minute, and then remembered; nobody else's times change but by what has left the minute; and nobody is remembered of whom nothing is left in it |
| `RateWindow.Sender.Allow` | src/directory/sending.rs:79-120 | the method's new note and answer; what is refused leaves the note alone |
| `CallLine.EveryReplyIsItsCalls` | src/asking.rs:111-146 | on every run, cut at any byte on either side: the reply returned for a call is what the server meant to say to that call, having read it whole, wherever that fits a frame, and the refusal in its place otherwise; the server reads nothing that is not a call |
| `CallLine.ExchangeRuns` | src/asking.rs:108-146 | from rest any call that fits a frame can be made, heard, answered with any reply and returned from, and both sides are at rest again |
| `CallLine.AdriftForGood` | src/asking.rs:111-123 | a client that gave up, or whose call was too long, asks nothing more on the line and takes nothing more from it, on every run after |
| `CallLine.GoesAdrift` | src/asking.rs:121-144 | both ways there: of a call that is too long nothing is sent |
| `CallLine.RefusesAndGoes` | src/serving/talking.rs:39-46 | after a frame it would not read, or a call it could not make out, the server's whole answer is on the line and it is gone |
| `CallLine.GoneForGood` | src/serving/talking.rs:26-46 | a server that has gone reads and says nothing more |
| `CallLine.NothingLeftToMistake` | src/asking.rs:47-55 | a client that may call again has every answer it was owed and no byte of another on the line |
| `CallLine.LateAnswerIsOnTheLine` | src/asking.rs:121-123 | for any call and reply, a run after which a client that gave up has that whole reply waiting on its line |
| `CallLine.WithoutTheFlagItIsWrong` | src/asking.rs:50-54 | without the flag that shuts the line the next call returns it: for any two calls, a run that returns the reply to the first for the second, which the server never read |
| `CallLine.KeepsInv` | src/serving/talking.rs:20-72 | every read, write, give-up and hang-up keeps the two in step |
| `CallLine.HearsTheCall` | src/serving/talking.rs:26-57 | what the server has is a frame only when it is the whole call |
| `CallLine.TakesTheAnswer` | src/asking.rs:124-139 | what the client has is a frame only when it is the whole answer to the call it made |
| `CallLine.Written` | src/serving/talking.rs:167-174 | a reply of at most 16 MiB goes out as itself and a longer one as the refusal; either way one sendable frame |
| `Framing.FramesReadBack` | src/framing.rs:82-107 | frames end to end, and part of another, come apart into the same bodies and that part |
| `Framing.FramesAreUnique` | src/framing.rs:82-107 | no two lists of bodies frame to the same bytes |
| `Framing.FrameReadsBack` | src/framing.rs:172-180 | a frame reads back whatever follows it |
| `Framing.PartIsShort` | src/framing.rs:172-180 | no proper part of a frame reads as a frame |
| `Framing.HeaderSaysLength` | src/framing.rs:88-96 | four bytes, big end first, say the length |
| `Framing.ReadsExactly` | src/framing.rs:82-107 | what a stream reads as, by the number its first four bytes make: short, refused at nought or past 16 MiB, or the body and what follows |
| `Framing.FramedExactly` | src/framing.rs:82-96 | a body is framed if and only if it is at most 16 MiB |
| `Framing.FirstByteDecides` | src/framing.rs:51-59 | an object or array of JSON and a map or array of CBOR (section 3.1 of RFC 8949) are told apart past any white space |
| `Framing.FindWire` | src/framing.rs:53-59 | the search finds the first byte that is not white space and decides on it |
| `Names.SameNameSameSeed` | src/identity.rs:130-138 | two seeds give one name if and only if they are a multiple of 552 apart |
| `Names.EveryPairComes` | src/identity.rs:130-138 | any 552 seeds on end give every ordered pair of different words |
| `Names.NamesInOrder` | src/identity.rs:130-138 | which name each seed gives: round after round through the first words, the second one word further on in each |
| `Names.PairSaysWhich` | src/identity.rs:72-77 | a name says which two words it is of |
| `Names.FreeOf` | src/identity.rs:87-104 | the search finds the first name not taken, wherever it starts, and gives a taken one only where all 552 are |
| `Names.OneDash` | src/identity.rs:130-138 | every id has one dash |
| `Names.Same` | src/identity.rs:119-128 | the comparison that looks at every byte is equality |

## Left out

- Refusal wording, verb tables, flags, the Lua engine, adapters, discovery, OAuth and model cards: no hard property.
- HTTP, TLS, signals, process spawning, file modes and ownership; time is a number, randomness a supply of fresh values, and whether a write, a lock or a dial succeeds is a parameter of the step.
- `claims.rs`; and of `reserved.rs` the files behind a hold: in `Forest` a hold counts, lapses at the step `Lapse`, and the child comes up before or after that or never.
- `Forest`: `parent_of`'s fallback to the environment. A session's end and the sweep of its notes are one step. Names are taken free only when no note or hold still mentions them, which `Chains.HangKeepsForest` shows is needed, since a name reused under an old note can close a ring.
- `Forest.EveryRunIsAForest`: a graft is one step, its checks and its note together. Grafts that overlap are `Handover`, which follows rings and not depth or breadth.
- `Handover.NeverEachOthersParent`: `consume` and `withdraw` are one step each, the run and depth checks beside the race are one flag, and a name is not given again to a new session while anything mentions it or once its session has died.
- `Pending.Note.Consume`: the renames inside it, and two processes taking the note at once.
- `Roster.Under`, `Tiered.TieredList`: an id is given once in a listing, as socket names in one directory are; text order is by character.
- `Leases.OthersLeaveALease`: the removal or replacement of the runtime directory itself, and files made at the two names by anybody else. An inode number is not given out again while a lease holds its file open.
- `Leases`: retrying for the directory lock is the step not being enabled yet; a plain file at the socket's name; one path at a time, other paths' operations holding the directory being `Elsewhere`.
- `EventQueue.ExactAccounting`: the atomics are sequentially consistent here, where the program orders some of them loosely; attempts are fewer than 2^64, past which the counters saturate by design.
- `EventQueue`: what an event is encoded from, and the transport behind the queue.
- `Spending.Ledger.Replace`: reading through a link.
- `RunLedger.LedgerIsWhatIsLeft`: says nothing of runs in which an ask opens the file beside the ledger while another has it open, where the ledger need not be a number; nor exactly which of those end so.
- `RunLedger`: the removal of the ledgers' directory, for an ask a failure like any other (the step `GiveUp`); writing one line is one step.
- `Spending`: prices and `cost`, which are floating point; a charge is any 64-bit number. `cap`'s reading of a setting.
- `Proxy.ReadCommitted`: JSON; a line is a row or `Other`, with a missing id empty and missing micros nought.
- `Proxy.ChargedWithinReservation`: `usage_of` and `failure_of`, which find the counts in a provider's answer; a figure is any 64-bit number or no number.
- `Encoder`: the other dialects, the message's usage counts, JSON and the chunked framing around each part.
- `BoundedMeter`: a poisoned lock; how rows are encoded, whose sizes are parameters; rendezvous groups, whose rows are the step `Note`; choosing a turn; the system's own errors, of which only the code in brackets at their end is used.
- `Inbox.InboxOf`: rows as CBOR; the lengths are those of JSON.
- `RateWindow.SendingIsCapped`: two processes writing the note at once, which loses a send by design, and a note that cannot be written; hashing, a mark being any 64-bit number; a poisoned lock in `heard_from`.
- `CallLine`: a line answered in place, the reply a full server sends unasked, and who is calling; deadlines are the steps `GiveUp` and `Leave`.
- `Names.FreeOf`: the look and the bind that follows it are not one act.
- `hopped` and `too_far`: a maximum and a comparison.
