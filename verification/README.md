# Verification of ngx_cpp_dev

A Dafny 4.11 model of the parts of ngx_cpp_dev that keep state and edit shared
structures in place, with proofs about them. `dafny verify dfyconfig.toml` checks
the whole project. Nothing here was executed.

## What is modelled

- **Footer filters** (`http/filter`, `legacy/footer`). A request passes a header and
  then any number of body chains through a stack of filters. Each filter keeps a flag
  that goes 0, 1, 2, adds its headers and the footer's size to the declared length,
  and edits the chain in place at the end of the body. `FooterSpec` says on values
  what one filter does to one call and to a run; `FooterStack` does so for a stack;
  `FooterFilter` holds the two C++ filters on the heap, proved against `FooterSpec`;
  `Pipeline` dispatches through the registered stack; `Echo` is `NgxResponse` and the
  echo handler on top of it.
- **Registration** (`Filters`): `NgxFilter`'s static next pointers.
- **Chains and pools** (`Chains`, `Upstream`, `Buffers`): links, buffers, the pool's free
  list. `Recycling` keeps the account of every link the system gave while they go
  back and forth between a pool and its users.
- **Timers** (`TimerSpec`, `NgxTimer`): the recycling event pool.
- **Lists** (`Lists`, `Entries`, `Headers`, `SubRequest`): the chunked list, the header lookups
  over it, and the list structure that `NgxSubRequest::create` copies and repairs.
- **Data hook** (`DataHookSpec`, `DataHook`): diverting subrequest output into the
  parent's context, as a state machine and on the requests and chains themselves.

Memory is a parameter. A pool carries the answers the system gives to its coming
requests (`grants`); elsewhere an argument `granted` gives the answer. Exceptions are
error results. A chain is described by the ghost sequence of its links, and a
`footprint` holds the objects an operation may write.

## What came out

- Body and footer leave in order, the footer once and at the end, however the body is
  cut, exactly when the header filter is called before the end of the body goes by
  (`FooterExactlyOnce`). A stack appends its footers top filter first
  (`StackAppendsFooters`), by composing one filter at a time (`StackIsComposition`).
- The declared length equals the delivered length for an honest producer, except for an
  empty body with a footer: a declared 0 is left as it was (`LengthConserved`).
- The filter moves its flag before it asks for memory. When memory is refused the chain
  is untouched and is not passed on, and no later call makes up for it (`RefusedForever`).
- Links behind the one that ends the response are dropped, or follow the footer when
  that link was empty (`EditAppendsExactly`).
- The older filter also stops at `last_in_chain`. The two agree on a call exactly when
  no edit is due or the first end mark of either kind ends the response (`FiltersAgree`).
- On a subrequest nothing ends the response, so the newer filter adds no footer though
  the length has grown; with `header_only` the end mark alone brings out the footers.
  `EchoLengthHonest` gives all the cases in which the echoed length is right.
- From registration to delivery (`ServeEcho`): whatever memory is refused on the way, the
  client's stream is a prefix of the complete response, and all of it when the handler
  succeeds.
- Following `next` from the top reaches nginx's own filter exactly when no tag was
  registered twice (`RegistrationOrder`).
- A range-for over an empty list hands out one slot that holds no element (`RangeFor`).
- After `create`, pushes on the subrequest stay its own when the parent's list has a
  single part (`CreateAndPush`), and are seen by the parent when it has more
  (`CreateAndPushShared`). A push on the single-part parent in between overwrites the
  subrequest's element: its contents survive exactly when it had pushed nothing or the
  same element is pushed (`PushParent`). A later `create` on a parent whose last pointer
  has gone stale hands the stale pointer on (`Create`).
- `NgxHeaders::remove` hides a key exactly when no later match is live; a second call
  marks the same entry again (`RemoveHidesExactly`).
- Links: whatever order takes and frees come in, no link is lost or in two hands, no
  chain in use is touched by them, and the system gives exactly as many links as were in
  use at once (`RunAccounts`, `Ledger`).
- Data hook: in every run each buffer of a subrequest ends in its parent's body or with
  the next filters, or is lost to refused memory, as often as it was sent
  (`BodyGoesOneWay`); a null chain goes nowhere. Clearing a context breaks the routing
  exactly when another request is marked to go there (`ClearBreaksRouting`).
- An add with the unset delay takes an event out of the pool for good, one for each, and
  nothing else does; without such adds the pool allocates exactly as many events as were
  armed or firing at once (`AllocatesPeak`).

## Model

| member | source | states |
|---|---|---|
| FooterSpec.Stage | http/filter/NdgFilterHandler.hpp:32-143 | one filter, one call: the flag stays or makes one step of 0, 1, 2, and a header call stays a header call |
| FooterSpec.FirstEof | http/filter/NdgFilterHandler.hpp:102-107 | the search finds the first link that ends the response and no earlier one does |
| FooterSpec.RunEdits | http/filter/NdgFilterHandler.hpp:86-143 | a started filter fed a body in any pieces, with any header calls between, gives the one-shot edit of the whole body |
| FooterSpec.RunPasses | http/filter/NdgFilterHandler.hpp:90-112 | before the header, after the footer, before the end or without a footer, every call passes unchanged |
| FooterSpec.EditFlattens | http/filter/NdgFilterHandler.hpp:126-140 | the edit appends the footer to the bytes and leaves exactly one end mark, on the last link |
| FooterSpec.EditMovesMarks | http/filter/NdgFilterHandler.hpp:116-140 | a body marked nowhere before its end leaves with both end marks on the footer and none before it |
| FooterSpec.EditAppendsExactly | http/filter/NdgFilterHandler.hpp:126-140 | with links behind the edited one, the footer is appended exactly when none of their bytes are dropped or overtaken |
| FooterSpec.FooterExactlyOnce | http/filter/NdgFilterHandler.hpp:32-143 | from a fresh request the output is body and footer if and only if the footer is empty or the header filter came in time, else the body alone |
| FooterSpec.EditWhenGranted | http/filter/NdgFilterHandler.hpp:114-140 | with memory at the call that ends the body, a run with refusals elsewhere is the run without |
| FooterSpec.EditWhenRefused | http/filter/NdgFilterHandler.hpp:75-84 | refused there, the output is every other call unchanged and no end of the response |
| FooterSpec.RefusedForever | http/filter/NdgFilterHandler.hpp:75-143 | both outcomes together, decided by that one call |
| FooterSpec.FirstLast | legacy/footer/NdgFooterHandler.hpp:102-110 | the older search stops at the first link with either end flag |
| FooterSpec.FiltersAgree | legacy/footer/NdgFooterHandler.hpp:86-137 | old and new filter treat a call alike if and only if no edit is due or the two end marks coincide |
| FooterSpec.FiltersAgreeOnRuns | legacy/footer/NdgFooterHandler.hpp:86-137 | they agree on every run of calls whose end marks coincide |
| FooterStack.StackIsComposition | ngxpp/NgxFilter.hpp:33-41 | calling next inside each call equals filtering the whole run filter by filter |
| FooterStack.FirstHeader | http/filter/NdgFilterHandler.hpp:32-72 | the first header call leaves with every footer's size (if the length was positive) and every filter's headers, top first |
| FooterStack.AddedHeadersAre | http/filter/NdgFilterHandler.hpp:45-58 | over a stack, each configured header is added with its own key and value and hash 1, behind those of the filters above |
| FooterStack.StackAppendsFooters | http/filter/NdgFilterHandler.hpp:32-143 | a whole response through k filters: body then footers from the top filter down, one end mark at the very end, later header calls unchanged |
| FooterStack.StackHoldsFooters | http/filter/NdgFilterHandler.hpp:109-112 | a body that has not ended leaves the stack unchanged whatever the flags |
| FooterStack.LengthConserved | http/filter/NdgFilterHandler.hpp:67-71 | an unknown length stays; an honest one equals the bytes delivered if and only if it is positive or no footer is configured |
| FooterFilter.Request.Data | ngxpp/NgxModule.hpp:164-184 | the context is created on first use and kept after; fails only when it must be created and memory is refused |
| FooterFilter.Request.AddHeader | ngxpp/NgxHeaders.hpp:68-77 | an entry with non-zero hash goes last, or nothing changes when a new part is needed and refused: the contract that Headers.AddFrom meets on the chunked list |
| FooterFilter.AddHeaders | http/filter/NdgFilterHandler.hpp:45-58 | each configured header goes last with its key, its value and hash 1, all of them exactly when every new part is granted, else exactly those before the first entry refused |
| FooterFilter.DoHeaderFilter | http/filter/NdgFilterHandler.hpp:32-72 | on the request: exact success condition; the first call adds every configured header by key and value and the footer's size to a positive length, a later one nothing; otherwise length unchanged, exactly the headers before the first refused entry added, flag already set unless the context itself was refused (legacy/footer's header filter is the same) |
| FooterFilter.FindEof | http/filter/NdgFilterHandler.hpp:102-107 | the pointer loop stops at the link Stage edits; earlier links carry other buffers |
| FooterFilter.ReplaceLast | http/filter/NdgFilterHandler.hpp:126-130 | only that link's buffer changes |
| FooterFilter.AddLast | http/filter/NdgFilterHandler.hpp:132-140 | the new link ends the chain and the old last buffer loses both flags, all else kept |
| FooterFilter.InsertFooter | http/filter/NdgFilterHandler.hpp:116-140 | all or nothing: the full edit exactly when buffer and link are granted, else the chain is unchanged; links keep their place |
| FooterFilter.DoBodyFilter | http/filter/NdgFilterHandler.hpp:86-143 | on the heap: exact success condition, chain, flag, pool and footprint after the call |
| FooterFilter.EditedLinks | http/filter/NdgFilterHandler.hpp:114-140 | on the links: the flag is 2 whatever happens; with memory the footer's buffer carries both marks and ends the chain, in place of an empty one or behind one that keeps its bytes and loses its marks; without, nothing changed |
| FooterFilter.BodyIsStage | http/filter/NdgFilterHandler.hpp:75-143 | the heap method's outcome, refused or not, is one step of the specification |
| FooterFilter.LegacyDoBodyFilter | legacy/footer/NdgFooterHandler.hpp:86-137 | the same for the iterator version, at its own end mark |
| FooterFilter.BodyIsLegacyStage | legacy/footer/NdgFooterHandler.hpp:86-137 | its outcome, refused or not, is one step of the older filter's specification |
| Filters.FilterTable.Init | ngxpp/NgxFilter.hpp:19-48 | each stack whose function is given gets the tag on top and the old top as its next, the other is kept |
| Filters.TagsSnoc | ngxpp/NgxFilter.hpp:19-31 | one more module adds its tag to exactly the stacks whose function it gives |
| Filters.RegistrationOrder | ngxpp/NgxFilter.hpp:19-56 | next leads from the top to nginx's own filter if and only if tags are distinct, and then visits them in reverse order |
| Filters.ReachingBaseMeansDistinct | ngxpp/NgxFilter.hpp:43-56 | any path to the base is the reverse registration order, with no tag twice |
| Filters.DistinctTagsReachBase | ngxpp/NgxFilter.hpp:43-56 | distinct tags give that path |
| Filters.InitAll | ngxpp/NgxFilter.hpp:19-31 | modules registering in turn, with either function or both, leave each stack that of its own tags; each ends at nginx's own filter if and only if its tags are distinct |
| Pipeline.RunHeader | http/filter/NdgFilterHandler.hpp:21-30 | a header call through the registered stack is Pass and ends with the header sent; an error leaves nothing received, the filters above the failing one stepped, its flag and headers as far as they got, those below untouched |
| Pipeline.RunBody | http/filter/NdgFilterHandler.hpp:75-84 | a body call through the registered stack is Pass on the chain's pieces; an error passes nothing on, with the flags above stepped, the failing filter's moved on if its edit was refused, those below untouched |
| Echo.SendHeader | ngxpp/NgxRequest.hpp:159-177 | the header goes down only when not yet sent, and then at most once whatever fails; status 0 becomes 200 |
| Echo.SendChain | ngxpp/NgxRequest.hpp:179-185 | header if needed, then the chain unless it is null or header_only is set |
| Echo.SendBuf | ngxpp/NgxRequest.hpp:187-196 | the same for one buffer on a link from the pool; the output filter's code is handed up |
| Echo.SendStr | ngxpp/NgxRequest.hpp:198-204 | the same for the bytes of a string |
| Echo.SendCopy | ngxpp/NgxRequest.hpp:211-215 | the same for a copied string |
| Echo.SendEof | ngxpp/NgxRequest.hpp:229-238 | one empty buffer, ending the response on a main request and only the chain on a subrequest |
| Echo.SendParts | http/echo/NdgEchoHandler.hpp:50-56 | up to three sends make one header call and the parts in order |
| Echo.Handler | http/echo/NdgEchoHandler.hpp:16-63 | refused methods and failed discards change nothing; otherwise exactly the calls of EchoCalls go through the stack when it succeeds, the first so many of them and no second header when memory is refused |
| Echo.EchoStream | http/echo/NdgEchoHandler.hpp:50-58 | those calls carry arguments, comma and message, ended only on a main request |
| Echo.EchoDelivers | http/echo/NdgEchoHandler.hpp:37-58 | end to end: one header, first, then the body and (on a main request) all footers |
| Echo.HandlerDelivers | http/echo/NdgEchoHandler.hpp:16-63 | what nginx's own filters have received once the handler returns, for a fresh request: all of that when it succeeds, a prefix of it whatever memory is refused |
| Echo.ServeEcho | http/filter/NdgFilterHandler.hpp:15-19 | registration to delivery: modules with distinct tags, a fresh request, the handler; one header with every tag's configured headers and footer size, then arguments, comma, message and the configured footers, latest registered first; or a prefix of just that |
| Echo.FreshFlags | http/filter/NdgFilterConf.hpp:26-29 | a request without contexts has every filter's flag at 0 |
| Echo.EchoLengthHonest | http/filter/NdgFilterHandler.hpp:67-71 | the cases, and only those, in which the declared length of the echo is what is delivered |
| Chains.Pool.Buffer | ngxpp/NgxPool.hpp:152-162 | a zeroed buffer, with a size one that owns that much memory; null exactly when one of its requests is refused |
| Chains.Pool.Chain | ngxpp/NgxPool.hpp:204-213 | the first free link is reused; null only when none is free and memory is refused |
| Chains.Pool.FreeLink | ngxpp/NgxChain.hpp:51-54 | the link goes on top of the free list |
| Chains.Size | ngxpp/NgxChain.hpp:149-159 | the sum is the length of the flattened chain |
| Chains.Copy | ngxpp/NgxChain.hpp:208-214 | the destination holds the flattened chain from the given place on, and is unchanged before and behind it |
| Chains.AddCopy | legacy/datahook/NdgDataHookHandler.hpp:79-82 | new links carrying the chain's buffers follow those already there, all of them exactly when every link beyond the free ones is granted, else those before the first refusal; the copied chain is unchanged |
| Chains.Tail | ngxpp/NgxChain.hpp:167-174 | terminates at the last link |
| Chains.Append | ngxpp/NgxChain.hpp:176-179 | two disjoint chains become one, in order |
| Chains.Free | ngxpp/NgxChain.hpp:216-229 | exactly the links before pos (all of them when it is not in the chain) reach the free list in reverse, the rest stays a chain |
| Upstream.Upstream.Take | ngxpp/NgxUpstream.hpp:37-47 | the first chain is taken, later ones are appended |
| Upstream.Upstream.Request | ngxpp/NgxUpstream.hpp:37-47 | the request chain reads as the old pieces followed by the new ones |
| Recycling.RunAccounts | ngxpp/NgxPool.hpp:204-213 | however taking and freeing interleave, each link is in exactly one place, the next one taken is nobody's, and the system gave exactly as many as were in use at once |
| Recycling.TakenIsNotHeld | ngxpp/NgxPool.hpp:204-213 | the link handed out is in nobody's chain |
| Recycling.Ledger.Take | ngxpp/NgxPool.hpp:204-213 | on the heap: chain() is one step of the account and touches no link in use |
| Recycling.Ledger.Give | ngxpp/NgxChain.hpp:216-229 | on the heap: free() is one step that gives up the links before pos, keeps the rest a chain and touches no other link in use, though it overwrites next |
| TimerSpec.AcquiredIsIdle | ngxpp/NgxTimer.hpp:126-137 | the event init clears is not armed, firing or lost |
| TimerSpec.StepKeepsInv | ngxpp/NgxTimer.hpp:100-142 | every event stays in exactly one of pool, armed, firing, lost, and an armed one holds the function of its add |
| TimerSpec.StepRefines | ngxpp/NgxTimer.hpp:25-41 | one step of the pool is one step of the machine that allocates per add |
| TimerSpec.RunRefines | ngxpp/NgxTimer.hpp:100-142 | over every run, re-entrant adds included, each expiry runs what the simple machine runs |
| TimerSpec.FiresOnce | ngxpp/NgxTimer.hpp:106-115 | in every run of the recycling pool no two expiries are of the same add |
| TimerSpec.AllocatesPeak | ngxpp/NgxTimer.hpp:126-142 | the number of events ever allocated is the most that were busy at once; one is lost for each add with the unset delay, none if and only if there is none, and then the number is the most armed or firing at once |
| NgxTimer.TimerEv.Init | ngxpp/NgxTimer.hpp:25-54 | the function is stored and the event armed unless the delay is unset |
| NgxTimer.TimerEv.Fire | ngxpp/NgxTimer.hpp:77-85 | the function runs only after a timeout |
| NgxTimer.TimerPool.Add | ngxpp/NgxTimer.hpp:100-103 | the deque and events after an add are the machine's: the event at the front, or a new one when the pool was empty, holds the function and is armed unless the delay is unset |
| NgxTimer.TimerPool.Expire | ngxpp/NgxTimer.hpp:106-110 | the function run at expiry is the machine's |
| NgxTimer.TimerPool.Finish | ngxpp/NgxTimer.hpp:114-142 | the event goes to the back of the deque |
| Lists.List.Push | ngxpp/NgxList.hpp:105-118 | one element more at the end, a new part only when the last is full, no other slot of the shared room written |
| Lists.List.Empty | ngxpp/NgxList.hpp:120-123 | true exactly when the list holds nothing, by the first part alone |
| Lists.List.Clear | ngxpp/NgxList.hpp:126-131 | empty and well formed again |
| Lists.IncrementedAt | ngxpp/NgxList.hpp:52-70 | ++iter is at the next slot, across parts, or at the end |
| Lists.Visit | ngxpp/NgxList.hpp:175-184 | the visitor gets exactly the elements in insertion order |
| Lists.Find | ngxpp/NgxList.hpp:186-199 | the first match, or end() exactly when there is none |
| Lists.RangeFor | ngxpp/NgxList.hpp:165-173 | exactly the elements for a list that is not empty, one phantom slot for an empty one |
| Lists.Merge | ngxpp/NgxList.hpp:152-160 | old contents then the other list's, which is unchanged; a refused push leaves a prefix; an empty list may be merged into anything |
| Headers.IEqualsIs | ngxpp/NgxHeaders.hpp:92-106 | keys are equal exactly when only the case of letters differs, and that is an equivalence |
| Headers.CaseDoesNotMatter | ngxpp/NgxHeaders.hpp:92-106 | a key with the case of any letters changed finds the same entry |
| Headers.Find | ngxpp/NgxHeaders.hpp:92-106 | the first entry whose key matches without regard to case, hash ignored |
| Headers.Has | ngxpp/NgxHeaders.hpp:46-49 | true exactly when some entry matches |
| Headers.Get | ngxpp/NgxHeaders.hpp:51-61 | the first match's value, else a null string |
| Headers.Add | ngxpp/NgxHeaders.hpp:68-77 | appended with a non-zero hash |
| Headers.AddFrom | ngxpp/NgxHeaders.hpp:68-77 | the same, asking the pool for a new part exactly when the last is full |
| Headers.Remove | ngxpp/NgxHeaders.hpp:79-89 | only the first match's hash becomes zero |
| Headers.RemovedIs | ngxpp/NgxHeaders.hpp:79-89 | that match is the first entry whose key differs in case only; its key and value stay |
| Headers.RemoveKeepsLookups | ngxpp/NgxHeaders.hpp:79-106 | keys, values and order stay, so every lookup finds what it found; removing twice is removing once |
| Headers.RemoveHidesExactly | ngxpp/NgxHeaders.hpp:79-106 | no live entry is left if and only if no match after the first was live |
| Lists.List.CopyOf | ngxpp/NgxSubRequest.hpp:97-98 | the copied structure shares room and later parts and keeps the parent's last pointer |
| SubRequest.Create | ngxpp/NgxSubRequest.hpp:87-113 | the subrequest's list shows what the parent's shows, in any state, and its last pointer is the final part if and only if the parent's was |
| SubRequest.CreateAndPush | ngxpp/NgxSubRequest.hpp:97-104 | create on a single-part parent, then any pushes: parent unchanged, subrequest extended |
| SubRequest.CreateAndPushShared | ngxpp/NgxSubRequest.hpp:97-104 | create on a parent of more parts, then a push: seen by both, and when the parent's last pointer goes stale |
| SubRequest.PushSingle | ngxpp/NgxSubRequest.hpp:100-104 | with a single-part parent a push changes only the subrequest's contents |
| SubRequest.PushMany | ngxpp/NgxSubRequest.hpp:100-104 | so does any sequence of pushes |
| SubRequest.PushShared | ngxpp/NgxSubRequest.hpp:100-104 | with more parts the parent's visible contents grow too, and its last pointer goes stale when a part was added |
| SubRequest.PushParent | ngxpp/NgxSubRequest.hpp:97-104 | a push on the single-part parent writes the shared slot; the subrequest's contents survive if and only if it had pushed nothing or the same element is pushed |
| DataHook.Data | ngxpp/NgxModule.hpp:164-184 | lazily created context, on its own among the others |
| DataHook.HeaderFilter | legacy/datahook/NdgDataHookHandler.hpp:23-59 | diverted exactly when the parent hooks and the own context is there or granted: then r is marked, the parent holds its headers and it counts as sent; handed on exactly when the parent does not hook; contexts are the machine's |
| DataHook.BodyFilter | legacy/datahook/NdgDataHookHandler.hpp:62-90 | on the links themselves: a chain of a marked request joins its parent's body, whole exactly when the context and links it needs find memory; others go on as they are; the parent dereferenced exists |
| DataHook.CollectIn | legacy/datahook/NdgDataHookHandler.hpp:76-84 | the parent's body grows by the copied links and stays a chain of its own beside every other context's and the free links |
| DataHook.StartHooking | legacy/datahook/NdgDataHookConf.hpp:19-25 | sets the hook and resets what was collected |
| DataHook.SetState | legacy/datahook/NdgDataHookConf.hpp:27-46 | a status that is set is kept; otherwise 0 gives 200, a negative code 500, a positive one itself |
| DataHook.ClearCtx | ngxpp/NgxModule.hpp:169-172 | the slot is empty |
| DataHookSpec.StepKeepsRouting | legacy/datahook/NdgDataHookHandler.hpp:26-84 | every operation but a clear keeps marked requests routed to a hooking parent |
| DataHookSpec.ClearBreaksRouting | ngxpp/NgxModule.hpp:169-172 | a clear keeps it if and only if no other request is marked to go there |
| DataHookSpec.RunRoutes | legacy/datahook/NdgDataHookHandler.hpp:70-77 | in every run the parent of a marked request exists, and hooks when nothing was cleared |
| DataHookSpec.HeaderCreatesOwnContext | legacy/datahook/NdgDataHookHandler.hpp:34-49 | a header call creates no context but the request's own |
| DataHookSpec.FlagsAreHistory | legacy/datahook/NdgDataHookHandler.hpp:26-54 | in every run hook and do_hook hold exactly when the history says so: the call took effect and no clear came after it |
| DataHookSpec.PresenceIsHistory | ngxpp/NgxModule.hpp:164-184 | in every run a request has a context exactly when an operation made one and no clear came after it |
| DataHookSpec.StatusIsHistory | legacy/datahook/NdgDataHookConf.hpp:19-46 | in every run a context's status comes from the first code heeded since it last started over, 0 while there is none |
| DataHookSpec.HeadersAreHistory | legacy/datahook/NdgDataHookHandler.hpp:41-49 | in every run the headers held are those of the last subrequest diverted since then |
| DataHookSpec.BodyIsCollected | legacy/datahook/NdgDataHookHandler.hpp:76-84 | in every run a context's body is the call-order concatenation of its marked subrequests' chains since it last started over |
| DataHookSpec.PassedIsHandedOn | legacy/datahook/NdgDataHookHandler.hpp:64-74 | in every run the next filters receive exactly the headers no parent hooks and the chains of unmarked requests, whole and in order |
| DataHookSpec.OneWay | legacy/datahook/NdgDataHookHandler.hpp:62-84 | one chain goes into the parent's body, on to the next filters, or nowhere, each buffer once |
| DataHookSpec.BodyGoesOneWay | legacy/datahook/NdgDataHookHandler.hpp:62-84 | conservation over every run: what a request's subrequests sent since it last started over is its body, what was handed on and what found no memory, buffer for buffer; with memory nothing is lost |

## Left out

- FooterFilter.Request.AddHeader: the response header list of this request is its entries and the room left in its last part; the parts themselves are in Lists, where Headers.AddFrom meets the same contract.
- Echo.Handler: when memory is refused to a request whose header was already out before some filter had its context, its contract says of what was received only that no second header call is among it.
- DataHook.BodyFilter: the copied links share their buffers with the originals, so later writes to those buffers are not separated.
- Lists.Merge: a list that is not empty must not use the target's last part, which excludes merging such a list with itself, where the source ends only by running out of memory.
- NgxTimer.TimerPool.Expire: callbacks that throw are not modelled; the event would stay out of the pool.
- Buffers: the readable range is kept as its bytes; pointers, boundaries, consume, produce, reset, flush and sync flags are not.
- NgxChain::clear and trace: one assignment or one call per link.
- Lengths are unbounded integers; overflow of off_t is not modelled.
- The nginx primitives (ngx_list_push, ngx_alloc_chain_link, ngx_free_chain, ngx_chain_add_copy, ngx_http_subrequest, ngx_http_send_special, ngx_http_output_filter, timer expiry and the base filters) follow their usual contracts; nginx's own sources are not part of this model.
- The write filter's own checks, such as its refusal of an empty buffer without flags.
- NgxStreamFilter, NgxQueue, NgxArray, NgxDigest, NgxDatetime, NgxThread, NgxScript, NgxRbtree: the same mechanism again, or thin wrappers.
- Connections, events, upstream sockets, shared memory, logging, configuration tables: input and output with little logic of their own.
- copy_variables in NgxSubRequest and the psr handlers: a plain copy and two field writes.
