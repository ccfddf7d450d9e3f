# A verified model of the TouchBar core

This project models the deterministic core of the TouchBar system in Dafny and proves what it
promises. It covers nine components, each in one or more modules that follow the source files:

- **Layout** (`layout_*.dfy`): the solver that turns a tree of items, groups and spaces plus a width
  into integer rectangles. Pure functions say what it computes; `LayoutSolver` holds the loops.
- **Registry, context and active chain** (`model.dfy`, `chain.dfy`, `context_chain.dfy`).
- **Profile composition** (`profiles.dfy`, `compose*.dfy`, `composer.dfy`): a profile template and a
  context become a bar with addressed slots. The specification is a sequence of identifier claims; the
  methods grow vectors and sets as the source does.
- **Composition controller** (`controller*.dfy`): leases, manual choice, rollback, and commits that
  wait while a touch contact is captured.
- **Broker messages** (`codec_*.dfy`): a grammar of binary formats with a printer and a parser, a magic
  and a body for each of the 43 message kinds, and the hand-written encoders and decoders of the hard
  kinds (context, context requests, commands, HTTP, stream events, directories, D-Bus signals) proved
  against the grammar, errors included.
- **Asset bundles** (`asset_bundle.dfy`), over the same grammar.
- **Seccomp filter** (`confinement.dfy`): a classic BPF interpreter and the rule compiler.
- **Client frame pacing** (`client.dfy`), **host event queue** (`events.dfy`), **catalog** (`catalog.dfy`).

`basics.dfy`, `sorting.dfy` and `ordering.dfy` hold the vocabulary: results, sums, stable sorting, and
the iteration order of Rust's ordered sets and maps.

Conventions. Rust strings are sequences of characters where only equality and order matter, and UTF-8
byte sequences (the grammar in section 4 of RFC 3629) in the codecs; a `f64` is its 64-bit pattern.
`u32`, `u64`, `i32` and `i64` are subset types; widths are natural numbers, and `GroupWidthFits`,
`BarSumsFit`, `TotalWeightFits` and `SharesNeverOverflow` bound what the source computes in 64 bits. Priorities are unbounded integers: they
are only compared. Every lemma carries `{:induction false}`, so each induction is written out.

What the model found, where code and expectation part:

- A prctl rule that lets an option through leaves the option in the accumulator, and the rules behind
  it compare it with syscall numbers: an ordinary prctl whose option equals a blocked number is refused
  (`PrctlOptionTakenForNumber`, exact condition in `PrctlAllowedExactly`). On x86-64 with the list the
  source builds this refuses PR_SET_SYSCALL_USER_DISPATCH, whose value is the number of execve
  (`UserDispatchIsRefused`, exact condition in `X86PrctlAllowedExactly`).
- The visibility handler of the client draws without looking at the new visibility, so hiding a surface
  can draw one frame nobody sees (`HiddenFrame`, exact condition in `DrawsHiddenExactly`).
- A visibility group named by the empty string is a group like any other, although the field is
  documented as a nonempty group: two such items disappear together and have to agree on their priority
  (`UnnamedGroupHidesTogether`, `UnnamedGroupIsGroup`); leaves share a unit exactly when they name the
  same group, whatever its name (`SharedUnitExactly`).
- Contribution groups restart their depth at one and the registry does not check sizes, so a profile
  that composes may give a bar that layout rejects: an item of minimum width zero
  (`ZeroWidthIsRejected`), a contribution seven deep inside one profile group (`SevenDeepIsRejected`).
  `LayoutAcceptsExactly` gives the exact condition on registry, catalog, profile and context.
- Re-encoding a decoded context request sorts its facts, so it gives back the same bytes exactly when
  they were ascending (`ReencodingSorts`); every other kind is canonical (`EncodeDecoded`).

## Model

| member | source | states |
|---|---|---|
| LayoutResolve.ResolveIsSound | crates/touchbar-layout/src/lib.rs:252-365 | On every success the visible items are placed in bar order, disjoint, inside the bar, each within its own width range, and placements with hidden items hold every item exactly once at any nesting |
| LayoutResolve.ResolveSucceedsExactly | crates/touchbar-layout/src/lib.rs:252-295 | Success holds if and only if the bar is valid, its visibility groups agree, and protected minima plus spaces fit; otherwise valid bars get InsufficientWidth with the needed width |
| LayoutResolve.RequiredIsPlaced | crates/touchbar-layout/src/lib.rs:252-295 | A required item is always placed |
| LayoutResolve.VisibilityGroupsAreAtomic | crates/touchbar-layout/src/lib.rs:550-593 | Elements of one visibility group appear or disappear together |
| LayoutResolve.UnnamedGroupHidesTogether | crates/touchbar-layout/src/lib.rs:67-68 | Two items in the group named by the empty string are both hidden when they do not fit side by side, even if one would fit |
| LayoutResolve.WideningShowsMore | crates/touchbar-layout/src/lib.rs:271-295 | A wider bar still fits and never hides an item that was shown |
| LayoutResolve.FlexibleFillsBar | crates/touchbar-layout/src/lib.rs:310-341 | Without a visible principal, any flexible space makes the content as wide as the bar |
| LayoutResolve.PrincipalIsCentred | crates/touchbar-layout/src/lib.rs:310-341 | A visible principal leaf is placed, and no admissible position of its element puts it closer to the centre |
| LayoutResolve.ArrangeSome | crates/touchbar-layout/src/lib.rs:310-341 | Flexible spaces on each side of the principal absorb exactly the slack of their side |
| LayoutResolve.CompressedFits | crates/touchbar-layout/src/lib.rs:595-628 | Compression reaches the smaller of natural and available width and keeps every width between minimum and preferred |
| LayoutResolve.CompressedIsGreedy | crates/touchbar-layout/src/lib.rs:595-628 | Of two visible elements, the one of higher compression priority, or the leading one of equals, shrinks only when the other is at its minimum |
| LayoutOverflow.HidesShortestPrefix | crates/touchbar-layout/src/lib.rs:271-288 | The hidden units are the shortest prefix of the hiding order that makes the minima fit |
| LayoutOverflow.WiderHidesLess | crates/touchbar-layout/src/lib.rs:271-288 | Hidden sets shrink as the width grows |
| LayoutOverflow.InsufficientExactly | crates/touchbar-layout/src/lib.rs:271-295 | Hiding fails to fit exactly when protected minima plus spaces exceed the width |
| LayoutUnits.HidingOrderFacts | crates/touchbar-layout/src/lib.rs:271-277 | The order holds exactly the non-required units, by ascending priority, trailing first |
| LayoutUnits.UnitsAreExact | crates/touchbar-layout/src/lib.rs:550-593 | Units partition the leaves, gather whole visibility groups, and are required when a member is |
| LayoutUnits.UnitsFailExactly | crates/touchbar-layout/src/lib.rs:550-593 | Building units fails exactly when two members of a group disagree on priority |
| LayoutUnits.SharedUnitExactly | crates/touchbar-layout/src/lib.rs:550-593 | Two leaves share a unit exactly when they are the same or name the same group, the empty name included |
| LayoutUnits.UnnamedGroupIsGroup | crates/touchbar-layout/src/lib.rs:550-593 | Two items in the group named by the empty string form one unit, or fail with that group's name when their priorities differ |
| LayoutGroups.ChildWidthsTile | crates/touchbar-layout/src/lib.rs:730-766 | For every width a sound group admits, child widths plus gaps tile it exactly and each lies in its child's range |
| LayoutGroups.GroupIsPresented | crates/touchbar-layout/src/lib.rs:730-766 | Laying out a group places exactly its items in order, disjoint and inside its rectangle, at any nesting |
| LayoutGroups.LayoutCommutesWithTranslation | crates/touchbar-layout/src/lib.rs:730-766 | Moving a group moves every placement by the same distance |
| LayoutGroups.GroupSizingFacts | crates/touchbar-layout/src/lib.rs:420-468 | A sound group has an ordered width range, and a group whose maximum is zero holds no item |
| LayoutGroups.GroupWidthFits | crates/touchbar-layout/src/lib.rs:420-468 | The 64-bit sums of a group cannot overflow below a bound on its size |
| LayoutWidths.GrowIsFair | crates/touchbar-layout/src/lib.rs:809-836 | Growing spends all the extra that the maxima allow and is max-min fair, the odd units going to a prefix of the growable children |
| LayoutWidths.FairIsUnique | crates/touchbar-layout/src/lib.rs:809-836 | A fair filling is determined by its total |
| LayoutWidths.EqualWidthsTile | crates/touchbar-layout/src/lib.rs:838-844 | Equal widths add up to the content, differ by at most one, and stay in the common range |
| LayoutWidths.CompressIsGreedy | crates/touchbar-layout/src/lib.rs:611-628 | A later candidate shrinks only when the earlier ones are at their minimum |
| LayoutWidths.DistributeAbsorbs | crates/touchbar-layout/src/lib.rs:630-662 | Flexible spaces absorb exactly the extra |
| LayoutWidths.DistributeFloors | crates/touchbar-layout/src/lib.rs:630-662 | Every flexible space but the last gets the floor of its weighted share |
| LayoutBounds.SharesNeverOverflow | crates/touchbar-layout/src/lib.rs:310-341 | On every success each extra that is spread is at most the available width, so its product with any weight stays below 2^64 |
| LayoutBounds.ArrangeSpreadsExtras | crates/touchbar-layout/src/lib.rs:310-341 | The arrangement is made by spreading exactly those extras, over the whole bar or on each side of the principal |
| LayoutBounds.TotalWeightFits | crates/touchbar-layout/src/lib.rs:630-662 | The total weight of at most 2^32 flexible spaces stays below 2^64 |
| LayoutBounds.BarSumsFit | crates/touchbar-layout/src/lib.rs:252-300 | The bar's sums of minima and of preferred widths stay below 2^64 while items, gaps, subgroups and spaces number at most 2^32 |
| LayoutValidate.ValidateExact | crates/touchbar-layout/src/lib.rs:470-540 | Validation accepts a bar exactly when identifiers are named and distinct, depth and sizes sound, spaces weighted, principal and required items present |
| LayoutValidate.BlameElements | crates/touchbar-layout/src/lib.rs:470-540 | Each error of the element loop names its defect: the repeated or empty identifier, the badly sized item, the group at depth nine, the group without a common width, the index of the weightless space |
| LayoutValidate.ValidateBlames | crates/touchbar-layout/src/lib.rs:470-497 | The same for a whole bar, with the principal that is no item of it and the required item that is missing |
| LayoutSolver.GrowWidths | crates/touchbar-layout/src/lib.rs:809-836 | The loop over the array computes the fair growth |
| LayoutSolver.CompressToFit | crates/touchbar-layout/src/lib.rs:595-628 | The loop over the array computes the greedy compression |
| LayoutSolver.DistributeFlexibleSpace | crates/touchbar-layout/src/lib.rs:630-662 | The loop adds floor shares and the remainder on the last space, in its range of the array only |
| LayoutSolver.NaturalChildWidths | crates/touchbar-layout/src/lib.rs:768-800 | Compresses or grows preferred widths to the content width |
| LayoutSolver.LayoutGroupInto | crates/touchbar-layout/src/lib.rs:730-766 | The recursive placement loop appends the group's layout |
| LayoutSolver.ValidateBar | crates/touchbar-layout/src/lib.rs:470-497 | The validating loops compute the specified result, first error included |
| LayoutSolver.ValidateGroupInto | crates/touchbar-layout/src/lib.rs:515-548 | The recursive group validation computes the specified result |
| LayoutSolver.VisibilityUnits | crates/touchbar-layout/src/lib.rs:550-593 | The loop builds the specified units |
| LayoutSolver.HideOverflow | crates/touchbar-layout/src/lib.rs:269-288 | The loop hides units until the minima fit and keeps the running total exact |
| LayoutSolver.PlaceBar | crates/touchbar-layout/src/lib.rs:343-365 | The final loop emits the specified placements, hidden items and content width |
| LayoutSolver.Resolve | crates/touchbar-layout/src/lib.rs:252-365 | The whole solver computes the specified result on every input |
| RegistryModel.Registry.AddItem | crates/touchbar-model/src/lib.rs:350-363 | Adds a new named item with a label and otherwise leaves the registry as it was, with the right error |
| RegistryModel.Registry.AddBar | crates/touchbar-model/src/lib.rs:365-375 | Adds a new named bar and otherwise leaves the registry as it was |
| RegistryModel.ValidRegistryBar | crates/touchbar-model/src/lib.rs:385-439 | In a valid registry every bar passes validation on its own |
| RegistryModel.KnownGroupResolves | crates/touchbar-model/src/lib.rs:547-571 | Groups of known items resolve, keeping their items in order |
| ActiveChain.NestIsSandwich | crates/touchbar-model/src/lib.rs:487-545 | Nested substitution at proxies is the left parts outermost first, the focused content, then the right parts; bars without a proxy add nothing |
| ActiveChain.ChainElementsHaveNoProxy | crates/touchbar-model/src/lib.rs:487-545 | No proxy survives composition |
| ActiveChain.ChainComposes | crates/touchbar-model/src/lib.rs:487-545 | On a valid registry a chain composes if and only if it is nonempty and its bars exist, never with an unknown item, and its principal is one of the composed items |
| ActiveChain.PrincipalIsEarliest | crates/touchbar-model/src/lib.rs:510-524 | The principal is that of the earliest chain bar whose principal is in the result |
| ActiveChain.ComposeActiveChain | crates/touchbar-model/src/lib.rs:487-545 | The loops compute the specified composition |
| ContextChain.SelectActiveChain | crates/touchbar-model/src/lib.rs:129-153 | The loop over rules selects, per scope, the highest priority and earliest matching bar, most specific scope first, plus the fallback once |
| ContextChain.SelectedChainComposes | crates/touchbar-model/src/lib.rs:129-153 | Whatever the context, the selected chain of a valid registry composes |
| Profiles.ProfileCatalog.AddContribution | crates/touchbar-model/src/profiles.rs:273-286 | Adds a new named contribution and otherwise changes nothing |
| Profiles.ProfileCatalog.AddProfile | crates/touchbar-model/src/profiles.rs:288-298 | Adds a new named profile and otherwise changes nothing |
| Profiles.ValidCatalogFacts | crates/touchbar-model/src/profiles.rs:308-449 | After validation every contribution is free of proxies, unknown items, unnamed groups and weightless spaces, and every slot is bound to known contributions without spaces inside groups |
| Profiles.Best | crates/touchbar-model/src/profiles.rs:670-680 | Select keeps the highest priority, then the most specific scope, then the earliest candidate |
| Profiles.CandidatesMembers | crates/touchbar-model/src/profiles.rs:647-662 | A slot's candidates are exactly its bound contributions that match the context or belong to a fixed slot |
| ComposeFacts.ComposesExactly | crates/touchbar-model/src/profiles.rs:451-526 | A profile composes if and only if the catalog is valid, the profile exists and no item or group is claimed twice; no other error is possible after validation |
| ComposeFacts.FirstRepetition | crates/touchbar-model/src/profiles.rs:683-759 | The reported duplicate is the first claim that repeats an earlier one |
| ComposeFacts.ComposedBarIsSound | crates/touchbar-model/src/profiles.rs:451-526 | The composed bar holds exactly the claimed items in order, each once, with named distinct groups, weighted spaces, and the principal kept exactly when present |
| ComposeFacts.ComposedBarValidates | crates/touchbar-model/src/profiles.rs:451-526 | Layout rejects a composed bar only for an item that is not sized, a group too deep or without a common width, or a required item that is not shown, and its error names one; never for empty, repeated or unknown identifiers or spaces |
| ComposeSizes.LayoutAcceptsExactly | crates/touchbar-model/src/profiles.rs:451-526 | Layout accepts the composed bar if and only if every claimed item is registered with a proper size, every slot leaves room for the depth of its selected contributions, every equal-width group has a common width, and the required items are claimed |
| ComposeSizes.SoundGroupExactly | crates/touchbar-layout/src/lib.rs:420-468 | A group is sound exactly when its items are sized and its width computation succeeds |
| ComposeWitness.ZeroWidthIsRejected | crates/touchbar-model/src/profiles.rs:743-759 | A valid catalog over a registered item of minimum width zero composes to a bar that layout rejects with InvalidSizing |
| ComposeWitness.SevenDeepIsRejected | crates/touchbar-model/src/profiles.rs:529-595 | A valid contribution seven deep in a slot of one profile group composes to a bar that layout rejects with GroupDepthExceeded |
| ComposeWitness.DeepIsAcceptedExactly | crates/touchbar-model/src/profiles.rs:529-595 | Such a contribution of any admissible depth is accepted exactly when its depth plus two is at most eight |
| ComposeSlots.SlotsAreAddressed | crates/touchbar-model/src/profiles.rs:451-645 | Following a slot's path reaches the container whose range is exactly the concatenation of the slot's selected contributions in selection order |
| ComposeSlots.TopSlotsAreDisjoint | crates/touchbar-model/src/profiles.rs:479-494 | Ranges of top-level slots are ordered and disjoint |
| Composing.ComposeProfile | crates/touchbar-model/src/profiles.rs:451-526 | The composing loops compute the specified composition or its first clash |
| Composing.Composer.ComposeProfileGroup | crates/touchbar-model/src/profiles.rs:529-595 | Composes a nested group, appending slot addresses and active contributions and claiming in order |
| Composing.Composer.ComposeTopSlot | crates/touchbar-model/src/profiles.rs:597-620 | Appends the resolved elements of the selected contributions in order |
| Composing.Composer.ComposeGroupSlot | crates/touchbar-model/src/profiles.rs:622-645 | The same for a slot inside a group, never reaching the arms for spaces or proxies |
| Composing.Composer.ResolveContributionGroup | crates/touchbar-model/src/profiles.rs:761-790 | Resolves a contributed group, claiming its identifiers in order |
| Composing.Composer.ResolveItem | crates/touchbar-model/src/profiles.rs:743-759 | Claims an item once and yields its registered layout, with the error for each failure |
| Controller.BestRule | crates/touchbar-model/src/profiles.rs:824-837 | The selector picks the matching rule of highest priority, the earliest among equals |
| Controller.DeltaIsPartition | crates/touchbar-model/src/profiles.rs:867-877 | A delta lists, in order, the exact partition of old and new items, and leads from one to the other |
| Controller.ReachableIsUpToDate | crates/touchbar-model/src/profiles.rs:919-1092 | In every reachable state the newest snapshot is the composition of the effective profile in the stored context, and one waits only while a contact is captured |
| Controller.StepKeepsInvariant | crates/touchbar-model/src/profiles.rs:973-1056 | Every command and capture event keeps that invariant |
| Controller.FrozenWhileCaptured | crates/touchbar-model/src/profiles.rs:1033-1056 | Over any run during which a contact stays captured the current snapshot does not change and nothing is shown |
| Controller.ApplyFrame | crates/touchbar-model/src/profiles.rs:973-1041 | A failing command leaves the whole state unchanged; a shown snapshot carries the difference from the one on screen |
| Controller.DeltasLeadToScreen | crates/touchbar-model/src/profiles.rs:1033-1071 | Over every run, with superseded snapshots, folding the shown deltas over the first items gives the items on screen |
| ControllerHistory.EffectiveProfileFromHistory | crates/touchbar-model/src/profiles.rs:973-1092 | Over every history with fewer than 2^64 activations the effective profile is the manual one, else that of the standing mode with greatest priority and latest activation, else the selector's, and the catalog has it |
| ControllerRuntime.CompositionController.Create | crates/touchbar-model/src/profiles.rs:934-963 | Creates a controller in the specified initial state, or fails as specified |
| ControllerRuntime.CompositionController.Apply | crates/touchbar-model/src/profiles.rs:973-1041 | Applies a command in place, putting every field back on failure, and keeps the invariant |
| ControllerRuntime.CompositionController.StartCapture | crates/touchbar-model/src/profiles.rs:1043-1045 | Records a captured contact and keeps the invariant |
| ControllerRuntime.CompositionController.EndCapture | crates/touchbar-model/src/profiles.rs:1047-1056 | Shows the waiting snapshot once the last contact ends and keeps the invariant |
| ControllerRuntime.CollectBar | crates/touchbar-model/src/profiles.rs:879-902 | Collects exactly the items of a bar, at any nesting |
| ControllerRuntime.ValidateSelector | crates/touchbar-model/src/profiles.rs:1094-1107 | Accepts a selector whose profiles exist and reports the first that does not |
| Formats.ParsePrinted | crates/touchbar-broker-schema/src/lib.rs:2181-2333 | Whatever is printed in a format is parsed back, up to exactly where it ends |
| Formats.PrintParsed | crates/touchbar-broker-schema/src/lib.rs:2181-2333 | Whatever is parsed fits the format and has no other encoding than the bytes it came from |
| Formats.PrefixFree | crates/touchbar-broker-schema/src/lib.rs:2241-2333 | No complete encoding is a proper prefix of another |
| Formats.LengthBound | crates/touchbar-broker-schema/src/lib.rs:2181-2239 | No encoding is longer than its format allows |
| Messages.DecodeEncoded | crates/touchbar-broker-schema/src/lib.rs:9-79 | For every message kind, decoding what was encoded gives it back; beyond the kinds with encoders and decoders below this is a law of their formats |
| Messages.EncodeDecoded | crates/touchbar-broker-schema/src/lib.rs:9-79 | For every message kind but the context request, encoding what was decoded gives back the same bytes; beyond the kinds with encoders and decoders below this is a law of their formats |
| Messages.MessagesArePrefixFree | crates/touchbar-broker-schema/src/lib.rs:9-51 | No accepted message continues another of any kind, so nothing is accepted under two magics |
| Messages.MagicIsUnique | crates/touchbar-broker-schema/src/lib.rs:9-51 | The 43 magics differ pairwise |
| Messages.HttpFitsBroker | crates/touchbar-broker-schema/src/lib.rs:62-64 | Every well-formed HTTP request or response encodes and fits in 60 KiB |
| ContextReadCodec.ReadRoundTrip | crates/touchbar-broker-schema/src/lib.rs:168-202 | A set of requested facts comes back from its encoding, whichever list it was read as |
| ContextReadCodec.ReencodingSorts | crates/touchbar-broker-schema/src/lib.rs:168-202 | Re-encoding a decoded request succeeds with the same length, and gives the same bytes exactly when the facts were ascending |
| ContextReadCodec.AcceptedIsList | crates/touchbar-broker-schema/src/lib.rs:184-202 | Whatever is accepted is a list of one to thirty-two distinct texts |
| ContextReadCodec.EncodeFacts | crates/touchbar-broker-schema/src/lib.rs:169-182 | The loop over the ordered set encodes exactly one to thirty-two short facts; none is Malformed, every other failure LimitExceeded |
| ContextReadCodec.DecodeFacts | crates/touchbar-broker-schema/src/lib.rs:184-202 | The inserting loop accepts exactly the bytes of the format, yields the set of the texts read, stops at a repeated one, and returns the first fault |
| TextLists.PutTexts | crates/touchbar-broker-schema/src/lib.rs:1934-1953 | Appends a counted list of texts exactly when all are short enough, else LimitExceeded |
| TextLists.GetTexts | crates/touchbar-broker-schema/src/lib.rs:1955-1985 | Reads a counted list of texts exactly when one is there, else returns its first fault |
| ContextCodec.EncodeSnapshot | crates/touchbar-broker-schema/src/lib.rs:222-297 | Encodes exactly the snapshots with a generation, few facts, distinct keys and short texts, as the format prints them; otherwise the first fault decides the error |
| ContextCodec.EncodeOpened | crates/touchbar-broker-schema/src/lib.rs:238-297 | The same behind a nonzero resource identifier |
| ContextCodec.DecodeSnapshot | crates/touchbar-broker-schema/src/lib.rs:227-341 | Accepts exactly the bytes of the format and yields the snapshot they encode; otherwise the error of the first fault, a repeated key before a bad value |
| ContextCodec.DecodeOpened | crates/touchbar-broker-schema/src/lib.rs:246-341 | The same behind a nonzero resource identifier |
| ContextCodec.SnapshotRoundTrip | crates/touchbar-broker-schema/src/lib.rs:259-341 | A snapshot is determined by its encoding and comes back from it |
| CommandCodec.EncodeRequest | crates/touchbar-broker-schema/src/lib.rs:1010-1052 | Encodes exactly the requests with few, distinctly named arguments, as the format prints them; otherwise the first fault decides the error |
| CommandCodec.DecodeRequest | crates/touchbar-broker-schema/src/lib.rs:1054-1095 | Accepts exactly the bytes of the format and yields the request they encode; otherwise the error of the first fault |
| CommandCodec.RequestRoundTrip | crates/touchbar-broker-schema/src/lib.rs:1010-1095 | A request is determined by its encoding and comes back from it |
| CommandCodec.EncodeEvent | crates/touchbar-broker-schema/src/lib.rs:1135-1164 | Encodes output chunks of bounded nonzero length and exits with either a code or a signal, with the error of every failure |
| CommandCodec.DecodeEvent | crates/touchbar-broker-schema/src/lib.rs:1166-1215 | Accepts exactly the bytes of the format and yields the event they encode; otherwise the error of the first fault |
| CommandCodec.EventRoundTrip | crates/touchbar-broker-schema/src/lib.rs:1135-1215 | An event is determined by its encoding and comes back from it |
| HttpCodec.EncodeRequest | crates/touchbar-broker-schema/src/lib.rs:1238-1251 | Encodes exactly the requests with a bounded body, as the format prints them, with the error of every failure |
| HttpCodec.DecodeRequest | crates/touchbar-broker-schema/src/lib.rs:1253-1273 | Accepts exactly the bytes of the format and yields the request they encode; otherwise the error of the first fault |
| HttpCodec.EncodeResponse | crates/touchbar-broker-schema/src/lib.rs:1284-1299 | The same for responses with a status from 100 to 599, with the error of every failure |
| HttpCodec.DecodeResponse | crates/touchbar-broker-schema/src/lib.rs:1301-1324 | Accepts exactly the bytes of the format and yields the response they encode; otherwise the error of the first fault |
| HttpCodec.RequestRoundTrip | crates/touchbar-broker-schema/src/lib.rs:1238-1273 | A request is determined by its encoding, comes back from it, and fits in 60 KiB |
| HttpCodec.ResponseRoundTrip | crates/touchbar-broker-schema/src/lib.rs:1284-1324 | A response is determined by its encoding, comes back from it, and fits in 60 KiB |
| StreamEventCodec.EncodeHttpEvent | crates/touchbar-broker-schema/src/lib.rs:1366-1399 | Encodes exactly the events with a proper status and bounded fields, as the format prints them, with the error of every failure |
| StreamEventCodec.DecodeHttpEvent | crates/touchbar-broker-schema/src/lib.rs:1401-1455 | Accepts exactly the bytes of the format and yields the event they encode; otherwise the error of the first fault |
| StreamEventCodec.HttpEventRoundTrip | crates/touchbar-broker-schema/src/lib.rs:1366-1455 | An HTTP stream event is determined by its encoding and comes back from it |
| StreamEventCodec.EncodeFileEvent | crates/touchbar-broker-schema/src/lib.rs:1576-1606 | Encodes exactly the file events with bounded fields, as the format prints them; every failure is LimitExceeded |
| StreamEventCodec.DecodeFileEvent | crates/touchbar-broker-schema/src/lib.rs:1608-1641 | Accepts exactly the bytes of the format and yields the event they encode; otherwise the error of the first fault |
| StreamEventCodec.FileEventRoundTrip | crates/touchbar-broker-schema/src/lib.rs:1576-1641 | A file stream event is determined by its encoding and comes back from it |
| DirectoryCodec.EncodeDirectory | crates/touchbar-broker-schema/src/lib.rs:1742-1759 | Encodes exactly the listings with a bounded number of entries and short names, as the format prints them; every failure is LimitExceeded |
| DirectoryCodec.DecodeDirectory | crates/touchbar-broker-schema/src/lib.rs:1761-1789 | Accepts exactly the bytes of the format and yields the listing they encode; otherwise the error of the first fault |
| DirectoryCodec.DirectoryRoundTrip | crates/touchbar-broker-schema/src/lib.rs:1742-1789 | A listing is determined by its encoding and comes back from it |
| DbusCodec.EncodeSignal | crates/touchbar-broker-schema/src/lib.rs:1934-2031 | Encodes exactly the signals with bounded lists, short names and finite floats, with the error of every failure |
| DbusCodec.DecodeSignal | crates/touchbar-broker-schema/src/lib.rs:1955-2057 | Accepts exactly the bytes of the format and yields the signal they encode; otherwise the error of the first fault |
| DbusCodec.SignalRoundTrip | crates/touchbar-broker-schema/src/lib.rs:1934-2057 | A signal is determined by its encoding and comes back from it |
| Streams.Encoder.String | crates/touchbar-broker-schema/src/lib.rs:2208-2215 | Appends a length-prefixed text exactly when it is short enough, else LimitExceeded |
| Streams.Decoder.String | crates/touchbar-broker-schema/src/lib.rs:2295-2309 | Reads a length-prefixed UTF-8 text exactly when one is there; LimitExceeded for a length beyond the limit, else Malformed |
| Keyed.KeyRepeated | crates/touchbar-broker-schema/src/lib.rs:318-322 | A repeated key makes the whole list unacceptable, whatever follows it, and is the fault reported |
| AssetBundles.BundleRoundTrip | crates/touchbar-package/src/asset_bundle.rs:33-119 | Bytes are the encoding of a list of assets exactly when they decode to it |
| AssetBundles.BundlesArePrefixFree | crates/touchbar-package/src/asset_bundle.rs:75-119 | A bundle determines its assets and no bundle continues another |
| AssetBundles.EncodeBundle | crates/touchbar-package/src/asset_bundle.rs:33-73 | The loop encodes exactly the bounded, distinct assets that fit in 8 MiB; otherwise the error is the first defect of the first defective asset |
| AssetBundles.DecodeBundle | crates/touchbar-package/src/asset_bundle.rs:75-119 | The loop accepts exactly the complete bundles and yields their assets; otherwise the error of the first fault |
| AssetBundles.Input.Take | crates/touchbar-package/src/asset_bundle.rs:127-138 | Advances the cursor over exactly the bytes returned, or reports truncation |
| Confinement.ProgramComputesVerdict | crates/touchbar-plugin-host/src/confinement.rs:269-305 | The emitted program always returns: kill for a foreign architecture, else the verdict of its rules with the overwritten accumulator |
| Confinement.CompiledRule | crates/touchbar-plugin-host/src/confinement.rs:385-419 | Each compiled rule either returns its verdict or continues behind itself with the accumulator it leaves |
| Confinement.HeadlessVerdict | crates/touchbar-plugin-host/src/confinement.rs:269-305 | The verdict of the headless filter for every architecture, number and argument |
| Confinement.LiveProgramVerdict | crates/touchbar-plugin-host/src/confinement.rs:269-305 | The verdict of the live filter for every architecture, number and argument |
| Confinement.LivePolicy | crates/touchbar-plugin-host/src/confinement.rs:269-305 | On separated numbers: EPERM for blocked, ENOSYS for clone3, EPERM for clone without the thread flags, EAFNOSUPPORT for other sockets, allow otherwise |
| Confinement.PrctlOptionTakenForNumber | crates/touchbar-plugin-host/src/confinement.rs:401-409 | An ordinary prctl option that equals a blocked number is refused |
| Confinement.PrctlAllowedExactly | crates/touchbar-plugin-host/src/confinement.rs:401-409 | A prctl is allowed exactly when its option is neither sensitive nor a number the filter handles |
| Confinement.X86IsSeparated | crates/touchbar-plugin-host/src/confinement.rs:325-383 | On x86-64 the list the source builds keeps the numbers apart as the policy needs |
| Confinement.X86PrctlAllowedExactly | crates/touchbar-plugin-host/src/confinement.rs:325-409 | On x86-64, in both modes, a prctl is allowed exactly when its option is neither sensitive nor a blocked or handled number |
| Confinement.UserDispatchIsRefused | crates/touchbar-plugin-host/src/confinement.rs:325-409 | On x86-64, in both modes, the ordinary option 59 is refused with EPERM because it is the number of execve |
| Confinement.BuildFilter | crates/touchbar-plugin-host/src/confinement.rs:269-308 | The pushing loops emit the specified program, unless it is too long for a 16-bit length |
| ClientRuntime.ReachableIsPaced | crates/touchbar-client/src/lib.rs:570-687 | After every interleaving at most one callback is outstanding; while running, configured and visible, none outstanding means nothing to redraw and animating means one outstanding |
| ClientRuntime.StepKeepsPacing | crates/touchbar-client/src/lib.rs:987-1006 | Every handler keeps the pacing |
| ClientRuntime.RedrawIsServed | crates/touchbar-client/src/lib.rs:1172-1190 | A pending redraw of a visible client has a callback coming, which draws it |
| ClientRuntime.DrawsHiddenExactly | crates/touchbar-client/src/lib.rs:987-1006 | A frame is drawn while hidden exactly by the handler that hides, when a redraw is wanted and none is pending |
| ClientRuntime.HiddenFrame | crates/touchbar-client/src/lib.rs:987-1006 | A run that draws a hidden frame and leaves a callback outstanding |
| ClientRuntime.Runtime.RenderAndCommit | crates/touchbar-client/src/lib.rs:611-642 | Draws, requests a callback when animating without one, and counts the frame |
| ClientRuntime.Runtime.OnConfigure | crates/touchbar-client/src/lib.rs:570-609 | The configure handler takes the specified step |
| ClientRuntime.Runtime.OnVisibility | crates/touchbar-client/src/lib.rs:987-1006 | The visibility handler takes the specified step |
| ClientRuntime.Runtime.OnTouch | crates/touchbar-client/src/lib.rs:669-677 | The touch handler takes the specified step |
| ClientRuntime.Runtime.OnExternal | crates/touchbar-client/src/lib.rs:679-687 | The external event handler takes the specified step |
| ClientRuntime.Runtime.OnAppearance | crates/touchbar-client/src/lib.rs:942-950 | The appearance handler takes the specified step |
| ClientRuntime.Runtime.OnFrameDone | crates/touchbar-client/src/lib.rs:1172-1190 | The callback handler takes the specified step |
| HostEvents.EdgesAreFifo | crates/touchbar-plugin-supervisor/src/events.rs:93-148 | Over every history accepted edges are delivered exactly once, in order |
| HostEvents.DeliveredStateIsLatest | crates/touchbar-plugin-supervisor/src/events.rs:78-148 | A delivered capability state is the last one pushed for its key, not delivered before, and both bounds hold |
| HostEvents.DropsAreAccounted | crates/touchbar-plugin-supervisor/src/events.rs:114-148 | Below saturation lost events equal reported plus waiting ones, and never fall short of them |
| HostEvents.PopShrinks | crates/touchbar-plugin-supervisor/src/events.rs:127-152 | Pop yields nothing exactly when the queue is empty, and otherwise shrinks it by one |
| HostEvents.DrainingTakesSize | crates/touchbar-plugin-supervisor/src/events.rs:127-152 | Draining takes exactly states plus edges pops, and one more after a drop |
| HostEvents.HostEventQueue.PushCapability | crates/touchbar-plugin-supervisor/src/events.rs:78-91 | Replaces or adds a state within the bound, or refuses and changes nothing |
| HostEvents.HostEventQueue.PushEdge | crates/touchbar-plugin-supervisor/src/events.rs:119-125 | Appends an edge or counts it as dropped |
| HostEvents.HostEventQueue.PopNext | crates/touchbar-plugin-supervisor/src/events.rs:127-148 | Delivers a state, else an edge, else the drop report, in place |
| PluginCatalog.Validate | crates/touchbar-catalog/src/lib.rs:39-147 | Finds no issue exactly when version, size, texts, categories, alias order, sources and tiers are in order |
| PluginCatalog.SearchIsLookup | crates/touchbar-catalog/src/lib.rs:149-159 | On every valid catalog the binary search agrees with looking at every entry |
| PluginCatalog.FindEntry | crates/touchbar-catalog/src/lib.rs:149-154 | The halving loop computes the search, and what it finds has the alias on any catalog |
| PluginCatalog.ValidateTransition | crates/touchbar-catalog/src/lib.rs:199-230 | Finds no issue exactly when every old entry is continued |
| PluginCatalog.AcceptsIsTransitive | crates/touchbar-catalog/src/lib.rs:199-230 | Acceptance composes on valid catalogs |
| PluginCatalog.AliasesAreForever | crates/touchbar-catalog/src/lib.rs:199-230 | Along any chain of accepted catalogs an alias never disappears, never changes source, and once retired never resolves again |

## Left out

- TransactionalContext (crates/touchbar-model/src/lib.rs): the composition controller proves the same deferral protocol with more state.
- Messages.DecodeEncoded: for the message kinds without a typed encoder and decoder here (single records of numbers, texts, flags and blocks) it is a law of the formats given for them.
- Messages.EncodeDecoded: the same, in the other direction.
- `Catalog::search`, TOML parsing and the GitHub identity syntax: string plumbing that would only add easy members.
- Syscall numbers of architectures other than x86-64: there the list and the numbers are parameters of the filter.
- Landlock, prctl calls, resource limits and cgroups: kernel calls without an algorithm of their own.
- Graphics, Wayland dispatch, presentation requests and appearance assembly in the client: the application, the graphics and the compositor are inputs of each event.
- The generation counters of snapshots: they are modelled with their wrap-around, but no uniqueness beyond 2^64 steps is claimed.
- Display strings, serialization of errors and logging.
- The command line, the control service and the SDK wrappers: forwarding and process control.
