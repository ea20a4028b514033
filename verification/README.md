# WHub core: verified models

WHub is a service hub: providers register services under URI patterns, requests are
routed to them, and the server runs middlewares, timed jobs, worker pools and a cached
client store around that. This project models the state-carrying data structures and
protocols underneath and proves what they keep over every input and every run.

`dafny verify dfyconfig.toml` checks everything.

| area | modules |
|---|---|
| Red-black tree with parent pointers | `RedBlackShape` (trees, zippers, in-order sequences, finite maps), `RedBlackRepair` (the five insertion cases, balance, height), `RedBlackStore` (when linked cells spell out a tree), `RedBlackTraversal` (search, traversal with a callback), `RedBlackTree` (the linked nodes) |
| Middleware chain | `MiddlewareManager` |
| URI router | `UriTokens`, `QueryString` (scanners and parsers), `RouteTable` (the plain table, what a query selects, the walk), `RouteSelection`, `RouteRebuild`, `RouteAdding`, `RouteMatching`, `RouteTraps` (laws of the table), `TrieStore`, `TrieGrowth` (when linked nodes index a table), `UriTrie` (the linked nodes) |
| Timed jobs | `JobPool` |
| Requests | `ServiceRequests` |
| Worker pool | `WorkerPool` |
| Resettable timer | `ResettableTimer` |
| Cached client store | `CachedStore` |
| Relay round robin | `RelayExecutor` |
| Linked list | `LinkedList` |

Code that updates fields in place is modelled by classes with those fields. Heap
structures are proved against a value they spell out (a tree, a route table, a node
sequence); the laws are then proved about the values. Concurrent code is a state machine
whose actions are the code's atomic sections, and the laws are about every sequence of
actions.

## Where the code differs from what it says

- `ForEach` of the tree is documented as stopping when the callback returns false. It
  only skips the right subtree of that node. `RedBlackTraversal.FirstStop`, `StopHonoured`
  and `StopIgnored` give the exact condition; on trees of three or more nodes there is
  always a callback that is called again. On an empty tree the traversal dereferences nil.
- A middleware's `Compare` subtracts priorities; `MiddlewareManager.CompareExact` says
  that it orders two of them correctly if and only if the subtraction does not overflow.
- The trailing slash that `Match` drops may belong to the last value of the query string,
  which then loses it; `RouteMatching.PrintedQueryMatched` gives the exact condition.
- The comment in `parseQueryParams` shows `&&` as separator; the code splits at every
  `&`, so an empty expression is an error.
- The duplicate-parameter check of `addPath` builds an error and drops it. A wildcard
  that is added again replaces the old node without asking for `override`. `size` counts
  failed additions too.
- The `break` after a wildcard leaves only the `switch`, so a wildcard succeeds on one
  final segment. A segment without a matching child leaves the walk where it is; for
  routes that end in a slash or contain an empty segment that can produce wrong answers.
  `RouteTraps.SoundIsExact` gives the exact condition.
- `fmt.Sprintf("%c…")` of a byte from 128 on writes two bytes, so a bound segment that
  starts with such a byte is not returned as it was; `RouteMatching.MatchRebuilds` gives
  the exact condition.
- `Kill` and `Cancel` of a request pass nil to a cell that refuses nil: the status is
  written, the barrier stays closed and the call panics.
- A worker's check of a request and its transition are two steps; a `Kill` in between is
  undone by the transition (`ServiceRequests.RevivedExactly`, `SplitCheckRevives`).
- `Cancel` of a timer has no effect once the timer was reset in its window
  (`ResettableTimer.CancelExact`).
- `lastSucceededConn` also advances on failures; it is a counter of attempts.
- `getNode` of the list returns the node two places before the one asked for when it
  walks from the tail; `Poll` and `Pop` of the only element, `Insert` before the first
  and `Remove` of the first or last leave `head` or `tail` stale. The contracts of those
  methods say exactly when.

## Assumptions

- Keys of the tree are ordered by a rank, as a comparison function must provide.
- Text is a sequence of bytes, written as characters. Integers are unbounded except where
  a row says otherwise; counters do not reach the machine limit.
- Job ids are fresh. An external call that fails has no effect, and one that succeeds has
  its effect. Sleeps last exactly as long as asked. Clocks, callbacks, connection answers,
  map iteration orders and failures are parameters, universally quantified in the laws.
- Within one locked section, channel operation or method named as one action, nothing
  else happens.

## Model

| member | source | states |
|---|---|---|
| RedBlackTree.Tree.Put | common/data_structures/RedBlackTree.go:67-103 | From any valid tree (linked nodes without cycles, parent links mirroring child links, strict search order, black root, no red node with a red child, equal black heights) the result is valid, its contents are exactly the old map updated at the key, only fresh nodes are added, and at most two rotations are made. |
| RedBlackTree.Tree.PutFirst | common/data_structures/RedBlackTree.go:68-74 | Into an empty tree: the linked result is the one of the insertion function on trees. |
| RedBlackTree.Tree.PutBelow | common/data_structures/RedBlackTree.go:75-103 | Into a non-empty tree: the linked result is the one of the insertion function on trees. |
| RedBlackTree.Tree.Descend | common/data_structures/RedBlackTree.go:75-100 | The search loop stops at the node whose key compares as equal, or links the new node exactly at the place where the key belongs, and changes nothing else. |
| RedBlackTree.Tree.Overwrite | common/data_structures/RedBlackTree.go:81-84 | An equal key keeps its node, colour and place and takes over key and value. |
| RedBlackTree.Tree.Insert | common/data_structures/RedBlackTree.go:101-102 | After linking, the repaired heap spells the tree that the insertion cases give. |
| RedBlackTree.Tree.ReplaceNode | common/data_structures/RedBlackTree.go:219-232 | Exactly the one link that led to the old node leads to the new one, which takes over the parent. |
| RedBlackTree.Tree.TurnLeft | common/data_structures/RedBlackTree.go:197-206 | Of all nodes only the four involved change, in exactly the fields of a left rotation. |
| RedBlackTree.Tree.TurnRight | common/data_structures/RedBlackTree.go:208-217 | Of all nodes only the four involved change, in exactly the fields of a right rotation. |
| RedBlackTree.Tree.RotateLeft | common/data_structures/RedBlackTree.go:197-206 | The heap spells the left-rotated tree in the same surroundings; one rotation is counted. |
| RedBlackTree.Tree.RotateRight | common/data_structures/RedBlackTree.go:208-217 | The heap spells the right-rotated tree in the same surroundings; one rotation is counted. |
| RedBlackTree.Tree.InsertCase1 | common/data_structures/RedBlackTree.go:234-240 | The heap spells what case 1 gives for the tree at the node, with at most two rotations; parent and grandparent are there whenever they are used. |
| RedBlackTree.Tree.InsertCase2 | common/data_structures/RedBlackTree.go:242-247 | The same for case 2, whose node has a parent. |
| RedBlackTree.Tree.InsertCase3 | common/data_structures/RedBlackTree.go:249-259 | The same for case 3, whose node has a grandparent. |
| RedBlackTree.Tree.Recolor | common/data_structures/RedBlackTree.go:252-254 | Parent and uncle turn black and the grandparent red, and no other colour changes. |
| RedBlackTree.Tree.InsertCase4 | common/data_structures/RedBlackTree.go:261-271 | The same for case 4: an inner grandchild is rotated to the outside first. |
| RedBlackTree.Tree.InsertCase5 | common/data_structures/RedBlackTree.go:273-282 | The same for case 5, with at most one rotation. |
| RedBlackTree.Tree.Kin | common/data_structures/RedBlackTree.go:173-195 | Grandparent and uncle read from parent links are those of the tree, and so are their colours. |
| RedBlackTree.Tree.WellLinked | common/data_structures/RedBlackTree.go:21-28 | In a valid tree child and parent links mirror each other, only the root has no parent, and child links strictly descend, so there is no cycle. |
| RedBlackTree.Tree.Search | common/data_structures/RedBlackTree.go:157-171 | The loop finds what the search on the tree finds, with at most as many comparisons as the tree is high. |
| RedBlackTree.Tree.Lookup | common/data_structures/RedBlackTree.go:157-171 | Found if and only if the key is in the map, with the map's entry, and 2 to the number of comparisons is at most (n+1) squared for n keys. |
| RedBlackTree.Tree.Get | common/data_structures/RedBlackTree.go:105-111 | The value the map holds for the key, or nothing if and only if it holds none. |
| RedBlackTree.Tree.Left | common/data_structures/RedBlackTree.go:284-292 | The node of the least key, nil if and only if the map is empty. |
| RedBlackTree.Tree.Right | common/data_structures/RedBlackTree.go:294-302 | The node of the greatest key, nil if and only if the map is empty. |
| RedBlackTree.Tree.InOrderTraverse | common/data_structures/RedBlackTree.go:41-51 | The callback's final state is that of the traversal of the spelled-out tree. |
| RedBlackTree.Tree.ForEach | common/data_structures/RedBlackTree.go:35-51 | The same from the root; an empty tree is a nil dereference. |
| RedBlackShape.InOrderPlug | common/data_structures/RedBlackTree.go:41-51 | The in-order sequence of a tree is what comes before a place, what is at it and what comes after it. |
| RedBlackShape.MapOfInsert | common/data_structures/RedBlackTree.go:67-103 | Putting an entry at its place in an ascending sequence updates the finite map at its key and nowhere else. |
| RedBlackRepair.RotateLeftKeepsInOrder | common/data_structures/RedBlackTree.go:197-206 | A left rotation leaves the in-order sequence unchanged. |
| RedBlackRepair.RotateRightKeepsInOrder | common/data_structures/RedBlackTree.go:208-217 | A right rotation leaves the in-order sequence unchanged. |
| RedBlackRepair.RepairKeepsInOrder | common/data_structures/RedBlackTree.go:234-282 | The whole repair leaves the in-order sequence unchanged, whatever the colours. |
| RedBlackRepair.Surroundings | common/data_structures/RedBlackTree.go:249-282 | A red parent implies a black grandparent, which therefore exists, and bounds on the uncle. |
| RedBlackRepair.Case3Climbs | common/data_structures/RedBlackTree.go:249-256 | Recolouring leaves at most one red-red pair, now exactly two levels higher. |
| RedBlackRepair.Case4Restores | common/data_structures/RedBlackTree.go:261-271 | With a black uncle, cases 4 and 5 end in a red-black tree. |
| RedBlackRepair.Case5Restores | common/data_structures/RedBlackTree.go:273-282 | On an outer grandchild with a black uncle, case 5 ends in a red-black tree. |
| RedBlackRepair.RepairRestores | common/data_structures/RedBlackTree.go:234-282 | A tree with at most one red-red pair, at the current node, is repaired to a red-black tree. |
| RedBlackRepair.PlugRedBlack | common/data_structures/RedBlackTree.go:234-247 | A balanced tree in balanced surroundings makes a red-black tree if its root is black or has a black parent. |
| RedBlackRepair.UnplugRedBlack | common/data_structures/RedBlackTree.go:234-247 | Conversely, every part of a red-black tree and its surroundings are balanced. |
| RedBlackRepair.LocateAscending | common/data_structures/RedBlackTree.go:78-100 | The place found by descent splits the in-order sequence into smaller and larger keys. |
| RedBlackRepair.PutCorrect | common/data_structures/RedBlackTree.go:67-103 | Insertion on trees keeps search order and balance and updates the finite map at the key. |
| RedBlackRepair.HeightBound | common/data_structures/RedBlackTree.go:157-171 | A red-black tree of n keys has height at most 2·log2(n+1). |
| RedBlackStore.LinksMirror | common/data_structures/RedBlackTree.go:21-28 | Linked cells that spell out a tree have mirrored parent and child links. |
| RedBlackStore.LinksDescend | common/data_structures/RedBlackTree.go:21-28 | And their child links lead strictly down. |
| RedBlackStore.LeftRotatedAt | common/data_structures/RedBlackTree.go:197-206 | The pointer changes of a left rotation turn cells that spell a tree into cells that spell the rotated one, at any depth. |
| RedBlackStore.RightRotatedAt | common/data_structures/RedBlackTree.go:208-217 | The same for a right rotation. |
| RedBlackTraversal.LocateContents | common/data_structures/RedBlackTree.go:157-171 | Descent ends at a node if and only if the finite map has the key, and then at the map's entry. |
| RedBlackTraversal.Run | common/data_structures/RedBlackTree.go:67-103 | After every sequence of insertions the tree is a red-black search tree whose contents are those of a plain map given the same calls. |
| RedBlackTraversal.ReachableHeight | common/data_structures/RedBlackTree.go:157-171 | Every reachable tree of n keys has height at most 2·log2(n+1). |
| RedBlackTraversal.TraversePicks | common/data_structures/RedBlackTree.go:35-51 | Whatever the callback answers, it sees a subsequence of the in-order entries and ends in its fold over them. |
| RedBlackTraversal.TraverseAscending | common/data_structures/RedBlackTree.go:35-51 | The keys seen are strictly ascending. |
| RedBlackTraversal.FirstStop | common/data_structures/RedBlackTree.go:34-51 | Up to and including its first false answer the callback sees every entry, all of them if there is none; it is not called again after it if and only if that entry lies on the right spine. |
| RedBlackTraversal.StopHonoured | common/data_structures/RedBlackTree.go:34-51 | In a tree without left children every callback is stopped by a false answer. |
| RedBlackTraversal.StopIgnored | common/data_structures/RedBlackTree.go:34-51 | In every other tree some callback answers false and is called again. |
| RedBlackTraversal.NoLeftChildIsSmall | common/data_structures/RedBlackTree.go:34-51 | Red-black trees without left children have at most two nodes. |
| RedBlackTraversal.CompareBound | common/data_structures/RedBlackTree.go:157-171 | The height bound in terms of the number of keys in the map. |
| RedBlackTraversal.ExtremeKeys | common/data_structures/RedBlackTree.go:284-302 | The ends of the in-order sequence are the map's entries of least and greatest key. |
| RedBlackTraversal.LeftmostIsFirst | common/data_structures/RedBlackTree.go:284-292 | Going left as far as possible ends at the first entry in order. |
| RedBlackTraversal.RightmostIsLast | common/data_structures/RedBlackTree.go:294-302 | Going right as far as possible ends at the last entry in order. |
| MiddlewareManager.CompareExact | hub_server/middleware/ServerMiddleware.go:43-46 | On 64-bit integers the subtraction orders two middlewares correctly if and only if it does not overflow. |
| MiddlewareManager.TraversalRunsAll | hub_server/modules/middleware_manager/MiddlewareManagerModule.go:34-43 | If no request becomes terminal, the traversal is the left fold of the last-registered middleware of each priority in ascending order. |
| MiddlewareManager.StopsAtFirstTerminal | hub_server/modules/middleware_manager/MiddlewareManagerModule.go:36-41 | Given the middlewares in order, the callback answers false for the first time at the one after which the request is terminal. |
| MiddlewareManager.TraversalStops | hub_server/modules/middleware_manager/MiddlewareManagerModule.go:34-43 | When a request turns terminal, what runs are exactly the middlewares up to that one if it is on the right spine of the tree; otherwise at least one more runs, still in ascending order. |
| MiddlewareManager.ListsUnique | hub_server/modules/middleware_manager/MiddlewareManagerModule.go:34-43 | There is exactly one ascending listing of the registered middlewares. |
| MiddlewareManager.Manager.RegisterMiddleware | hub_server/modules/middleware_manager/MiddlewareManagerModule.go:49-57 | A middleware whose initialisation fails is not registered; otherwise it replaces the one of equal priority in the tree's map. |
| MiddlewareManager.Manager.RunMiddlewares | hub_server/modules/middleware_manager/MiddlewareManagerModule.go:34-43 | Crashes if and only if nothing is registered. For the ascending listing of the registry: all of it runs if no request turns terminal; if one does, the chain ends there when that middleware is on the right spine of the tree, and goes on with at least one more otherwise. |
| UriTokens.SplitRemaining | common/uri_trie/TrieTree.go:44-57 | Cuts the text at its first slash, or not at all. |
| UriTokens.SplitRemainingAt | common/uri_trie/TrieTree.go:44-57 | The cut is determined by the position of the first slash. |
| UriTokens.PrintRoute | common/uri_trie/TrieTree.go:133-166 | Reading a pattern into tokens loses nothing: printing them gives the pattern back. |
| UriTokens.TokensArePattern | common/uri_trie/TrieTree.go:133-170 | What a pattern is read as: slashes, constants that do not begin with a colon or a star, parameter names up to the next slash, neighbours separated by slashes, a wildcard last. |
| UriTokens.ReadPrinted | common/uri_trie/TrieTree.go:133-170 | Conversely, every such sequence of tokens is what its printed pattern is read as, so patterns and token sequences correspond one to one. |
| UriTokens.JoinSegments | common/uri_trie/TrieTree.go:256-270 | The segments of a query join to the query. |
| UriTokens.SegmentsAlternate | common/uri_trie/TrieTree.go:256-270 | No two neighbouring segments are names. |
| UriTokens.KeyInjective | common/uri_trie/TrieTree.go:164-165 | Different constants are stored under different keys, although the first byte is re-encoded. |
| UriTokens.KeyLength | common/uri_trie/TrieTree.go:270-283 | The bound text is the segment if and only if that starts with an ASCII byte. |
| QueryString.ParseQueryParams | common/uri_trie/TrieTree.go:25-42 | The loop returns the map of all expressions, later ones prevailing, or an error if one is malformed. |
| QueryString.ParseFails | common/uri_trie/TrieTree.go:32-38 | One malformed expression anywhere makes the whole query an error. |
| QueryString.ParsesExactly | common/uri_trie/TrieTree.go:32-38 | A query parses if and only if each expression is one key and one value. |
| QueryString.ParsedKeys | common/uri_trie/TrieTree.go:39 | The keys of the map are exactly those that occur. |
| QueryString.LastExpressionWins | common/uri_trie/TrieTree.go:39 | Of several expressions of one key the last gives its value. |
| QueryString.LastIndex | common/uri_trie/TrieTree.go:59-66 | The position of the last question mark, or -1 if there is none. |
| QueryString.AppendParams | hub_client/services/HTTPClientService.go:60-70 | The builder loop appends the printed pairs in iteration order, without the last ampersand. |
| QueryString.AssembleRequestUrl | hub_client/services/HTTPClientService.go:56-71 | The whole URL, with nothing appended for an empty map. |
| QueryString.RoundTrip | hub_client/services/HTTPClientService.go:56-71 | For every iteration order, splitting and parsing the printed URL returns the map and the base path, for keys and values free of the three separators; a question mark in the path matters only if the map is empty. |
| QueryString.QueryEnd | hub_client/services/HTTPClientService.go:64-70 | A printed query ends in a slash if and only if its last value does, and is without it the printed query of the map with that value cut. |
| RouteAdding.IndexAdded | common/uri_trie/TrieTree.go:127-178 | Adding a route adds exactly its prefixes as positions. |
| RouteAdding.AddedConflictFree | common/uri_trie/TrieTree.go:95-113 | An addition without a rival on its way leaves at most one parameter or wildcard per position. |
| RouteAdding.RunConsistent | common/uri_trie/TrieTree.go:127-178 | After every run of additions routes are filed under their own tokens and the index is free of conflicts. |
| RouteSelection.WalkSound | common/uri_trie/TrieTree.go:250-296 | Without traps, the walk ends on the selected route or where there is no value. |
| RouteSelection.WalkComplete | common/uri_trie/TrieTree.go:250-296 | If the query selects a route, the walk lands on it with its bindings. |
| RouteSelection.WildEnds | common/uri_trie/TrieTree.go:276-280 | A wildcard succeeds on the last segment only. |
| RouteSelection.WalkExact | common/uri_trie/TrieTree.go:250-296 | Without traps, the walk lands on a route with a value if and only if the query selects it: constants first, then a wildcard on the last segment or a parameter, without backtracking. |
| RouteRebuild.RebuildExact | common/uri_trie/TrieTree.go:276-285 | With distinct names, the bindings are exactly for the names of the pattern, and substituting them rebuilds the path if and only if every bound segment starts with an ASCII byte. |
| RouteMatching.WellFormedIsSound | common/uri_trie/TrieTree.go:264-286 | Routes that begin with a slash, have no empty segment and no trailing slash make no traps. |
| RouteMatching.MatchExact | common/uri_trie/TrieTree.go:250-311 | On a table without traps and a query that begins with a slash, the match is an answer if and only if it is the registered route that the query selects, with its value, pattern, query and path parameters. |
| RouteMatching.RunMatchExact | common/uri_trie/TrieTree.go:357-381 | The same after every sequence of additions of well-formed routes, failed ones included. |
| RouteMatching.MatchRebuilds | common/uri_trie/TrieTree.go:250-296 | A successful match binds exactly the names of the pattern, and substitution rebuilds the path looked up if and only if every bound segment starts with an ASCII byte. |
| RouteMatching.SlashDropped | common/uri_trie/TrieTree.go:414-420 | Path and query looked up for a path with a slash added are those of the path itself, and nothing but a trailing slash is dropped. |
| RouteMatching.SlashMatchesAlike | common/uri_trie/TrieTree.go:357-375 | On every table a path that does not end in a slash matches with one added exactly as without. |
| RouteMatching.PrintedQueryMatched | common/uri_trie/TrieTree.go:361-366 | A match of a printed URL looks up its base path, and gets the printed parameters if and only if the last of them does not end in a slash. |
| RouteMatching.ConflictsExactly | common/uri_trie/TrieTree.go:95-113 | An addition meets a conflict if and only if some route of the table parts from it by another parameter or wildcard. |
| RouteMatching.OverrideExact | common/uri_trie/TrieTree.go:171-176 | Adding a route again that has a value fails if and only if override is not given, except that a wildcard is always replaced; if it does not fail, exactly the queries answered with that route are answered with the new value, and all other answers stay. |
| RouteMatching.AddedAnswers | common/uri_trie/TrieTree.go:171-176 | After an addition that did not fail, every query that selects the route is answered with its value, pattern and bindings, and all other routes have what they had. |
| RouteMatching.FailedAddKeepsMatches | common/uri_trie/TrieTree.go:167-173 | After every run, a failed addition leaves every later answer as it was. |
| RouteTraps.TrapMisleads | common/uri_trie/TrieTree.go:272-285 | Every trap gives a query that is answered with a route it does not select. |
| RouteTraps.SoundIsExact | common/uri_trie/TrieTree.go:250-311 | For tables of routes with values, every query that begins with a slash is answered as it should be if and only if there is no trap. |
| RouteTraps.SegmentsJoin | common/uri_trie/TrieTree.go:256-270 | Every spelled sequence of segments is that of some query. |
| TrieStore.GrownWired | common/uri_trie/TrieTree.go:95-125 | Hanging a fresh node below a place where the step is free keeps the nodes in one-to-one correspondence with the positions. |
| TrieStore.WiredConflictFree | common/uri_trie/TrieTree.go:76-85 | Linked nodes allow only one parameter or wildcard per position. |
| TrieGrowth.ExtendsStep | common/uri_trie/TrieTree.go:133-170 | Each step along a route only adds empty nodes on that route. |
| TrieGrowth.RivalOnOldGround | common/uri_trie/TrieTree.go:167-169 | A conflict can be met only while nothing has been changed yet. |
| TrieGrowth.TakenOnOldGround | common/uri_trie/TrieTree.go:171-173 | A taken route can be met only if nothing has been changed. |
| TrieGrowth.Filed | common/uri_trie/TrieTree.go:174-175 | Writing value and pattern into the last node files exactly that route in the table. |
| UriTrie.ScanRemaining | common/uri_trie/TrieTree.go:44-57 | The loop computes the cut at the first slash. |
| UriTrie.ScanToken | common/uri_trie/TrieTree.go:134-166 | The switch reads the first token of a pattern, which the two laws of reading and printing determine. |
| UriTrie.ScanSegment | common/uri_trie/TrieTree.go:262-270 | The switch reads the first segment of a query. |
| UriTrie.TrieTree.AddParam | common/uri_trie/TrieTree.go:95-105 | Refused, with nothing changed, if and only if a wildcard or another parameter competes; otherwise the child is there, old or new. |
| UriTrie.TrieTree.AddWildcard | common/uri_trie/TrieTree.go:107-113 | Refused, with nothing changed, if and only if a parameter or another wildcard competes; otherwise a new child takes the place. |
| UriTrie.TrieTree.AddConst | common/uri_trie/TrieTree.go:115-125 | The child is there, old or new; never refused. |
| UriTrie.TrieTree.Grow | common/uri_trie/TrieTree.go:131-170 | The loop fails if and only if the route conflicts, and then no node was created or overwritten. |
| UriTrie.TrieTree.File | common/uri_trie/TrieTree.go:171-176 | A value that is there is kept unless it may be overridden; otherwise exactly this route is filed. |
| UriTrie.TrieTree.AddPath | common/uri_trie/TrieTree.go:127-178 | Fails if and only if the route conflicts or is taken, and then no node was created or overwritten; otherwise the trie indexes the table with the route added. |
| UriTrie.TrieTree.Add | common/uri_trie/TrieTree.go:377-381 | The same from the root; a failed addition changes no later match; every call counts towards the size. |
| UriTrie.TrieTree.MatchNode | common/uri_trie/TrieTree.go:250-296 | The linked walk ends where the walk on positions ends, with the same bindings. |
| UriTrie.TrieTree.FindByPath | common/uri_trie/TrieTree.go:216-248 | The separately written walk ends at the same place. |
| UriTrie.TrieTree.Match | common/uri_trie/TrieTree.go:357-375 | The trie answers what the plain route table answers, errors included, for every path. |
| UriTrie.TrieTree.SupportsUri | common/uri_trie/TrieTree.go:393-408 | True if and only if the match succeeds, for every trie and path. |
| JobPool.Pool.TransitJobStatus | common/timed/timed.go:187-202 | Done removes the job, a terminating job is not revived, every other transition of a stored job takes place, no stored job is done afterwards, and the recursion with Cancel ends. |
| JobPool.Pool.Cancel | common/timed/timed.go:270-278 | Succeeds if and only if the job is stored, which then is terminating. |
| JobPool.MoveKeepsTied | common/timed/timed.go:87-124 | A step of either executor keeps it tied to its job: stored until the executor is gone, terminating exactly if cancelled, at most one late start. |
| JobPool.ApplyKeepsInv | common/timed/timed.go:187-278 | Scheduling, cancelling and executor steps keep that for all jobs, and the pool within its size. |
| JobPool.RunSafety | common/timed/timed.go:60-123 | Over every interleaving, with check and transition as separate steps: after a successful Cancel the body starts at most once more, and exactly if the cancellation came between a passed check and the start it allowed; a timeout job runs at most once, and by the end exactly once unless it was cancelled before its check; an interval job ends only if cancelled; no stored job is done; a job is stored until its executor is gone. |
| JobPool.ScheduleExact | common/timed/timed.go:237-252 | After every run a new job is stored, waiting, with an executor that has not begun, if and only if there is room. |
| JobPool.IntervalRepeats | common/timed/timed.go:108-123 | Over every interleaving, an interval job that was not cancelled never ends, and the steps of its executor and the starts of its body advance together, five steps to a start. |
| JobPool.IntervalStarts | common/timed/timed.go:111-120 | So after n steps of its executor its body has started (n+2)/5 times. |
| JobPool.CancelledEnds | common/timed/timed.go:88-96 | A cancelled executor comes closer to its end with every step of its own, and no other thread delays it. |
| ServiceRequests.StatefulBarrier.OpenWith | common/async/barrier.go:53-59 | A write-once cell: the first payload stays, only a payload opens it, and nil panics while it is closed. |
| ServiceRequests.ServiceRequest.Kill | hub_common/service/ServiceRequest.go:115-122 | Refused, with nothing changed, if and only if the request is terminal; otherwise exactly the status changes, to dead, and the call panics if and only if the barrier was closed. |
| ServiceRequests.ServiceRequest.Cancel | hub_common/service/ServiceRequest.go:124-131 | Refused, with nothing changed, if and only if the request is terminal; otherwise exactly the status changes, to cancelled, and the call panics if and only if the barrier was closed. |
| ServiceRequests.ServiceRequest.Resolve | hub_common/service/ServiceRequest.go:133-140 | Refused, with nothing changed, if and only if the request is not being processed; otherwise it is finished and the barrier is open, with this message unless it was open before. |
| ServiceRequests.ServiceRequest.TransitStatus | hub_common/service/ServiceRequest.go:103-109 | Any status may be set unless the request is finished. |
| ServiceRequests.WinsExactly | hub_common/service/ServiceRequest.go:115-140 | The winners of a request grow exactly with the replies that are no refusals, and a refused call changes nothing. |
| ServiceRequests.ApplyKeepsInv | hub_common/service/ServicePool.go:76-104 | Every step keeps: a request that was not revived is decided at most once, and executions are tasks begun. |
| ServiceRequests.RunSafety | hub_common/service/ServiceRequest.go:103-140 | Over every run, with check and transition apart: a request that no worker revived has at most one winner, whose status and payload it carries; executions never exceed acceptances. |
| ServiceRequests.AcceptedOnce | hub_common/service/ServicePool.go:86-104 | Over every run a request has one task that was not executed to the end if it is in the set and none otherwise, and only a request that is not in the set is queued. |
| ServiceRequests.CheckedThenExecuted | hub_common/service/ServicePool.go:94-101 | A queued task is turned away if and only if its request is dead or cancelled; otherwise the request is executed once more and is being processed, unless it is finished. |
| ServiceRequests.EndedIsFree | hub_common/service/ServicePool.go:101-102 | An execution that ends takes exactly its request out of the set. |
| ServiceRequests.ExecutedBeforeResolved | hub_common/service/ServiceRequest.go:133-140 | Over every run only a request whose execution has begun is being processed or finished, so none is resolved before it. |
| ServiceRequests.AtomicSafety | hub_common/service/ServicePool.go:86-104 | Over every run with atomic check-and-transit: at most one of Resolve, Kill and Cancel succeeds, status and barrier are the winner's, the barrier is open if and only if it is a Resolve, and executions never exceed acceptances. |
| ServiceRequests.AtomicExecutesLive | hub_common/service/ServicePool.go:94-101 | In such a run no step executes a killed or cancelled request. |
| ServiceRequests.TerminalForever | hub_common/service/ServiceRequest.go:103-140 | In such a run a terminal status, its payload and its winner stay for good. |
| ServiceRequests.AtomicNeverRevives | hub_common/service/ServicePool.go:94-99 | In such a run no request is ever revived. |
| ServiceRequests.TerminalStays | hub_common/service/ServiceRequest.go:103-140 | One step leaves a terminal request as it is unless it revives it. |
| ServiceRequests.RevivedExactly | hub_common/service/ServicePool.go:94-99 | A request is revived by exactly one kind of step: the transition of a task that passed its check before the request was killed or cancelled. |
| ServiceRequests.SplitCheckRevives | hub_common/service/ServicePool.go:94-101 | A run in which check and transition are apart and both Kill and Resolve succeed on one request. |
| WorkerPool.GetInRangeInt | common/async/async.go:281-289 | The value of the range nearest to the one asked for. |
| WorkerPool.NewPool | common/async/async.go:72-89 | The channel holds 16 to 2048 tasks and the limit is 2 to 1024 workers, as asked for where that is in range. |
| WorkerPool.AsyncPool.AddWorker | common/async/async.go:158-167 | A worker is started and counted if and only if fewer than the allowed number are. |
| WorkerPool.AsyncPool.IncreaseWorkerSizeTo | common/async/async.go:270-278 | The limit only ever grows, and the answer says whether it did. |
| WorkerPool.AsyncPool.IncrementNumBusyWorkers | common/async/async.go:119-123 | The busy counter goes up by one and nothing else changes. |
| WorkerPool.AsyncPool.DecrementNumBusyWorkers | common/async/async.go:125-129 | The busy counter goes down by one and nothing else changes. |
| WorkerPool.AsyncPool.SetStatus | common/async/async.go:103-111 | Only the four known statuses are taken over. |
| WorkerPool.ThreadKeepsConserved | common/async/async.go:198-213 | A step of schedule or of a pool start keeps tasks conserved: at most the caller's own task enters the channel, once. |
| WorkerPool.WorkerKeepsConserved | common/async/async.go:131-151 | A step of a worker keeps tasks conserved and in order. |
| WorkerPool.StartingKept | common/async/async.go:170-185 | Once the pool is running, a first worker exists or is on its way. |
| WorkerPool.StepKeepsInv | common/async/async.go:119-213 | Every step of a caller, starter, worker or resize keeps the whole invariant; without Stop the pool is only ever idle or running. |
| WorkerPool.RunSafety | common/async/async.go:119-168 | Over every interleaving: 0 ≤ busy ≤ started ≤ total, the busy counter is the number of workers between increment and decrement, the channel keeps its capacity, every task that entered it is queued, held by one worker or finished, exactly one of these and once, tasks leave in order of entering, and each is begun at most once. |
| WorkerPool.RunsAreBounded | common/async/async.go:131-213 | However callers and workers interleave, they come to rest after a bounded number of steps. |
| WorkerPool.RestIsDone | common/async/async.go:131-213 | They are at rest if and only if every call has handed over its task and every task is finished: none is stranded. |
| WorkerPool.EveryTaskFinishes | common/async/async.go:198-232 | From every reachable state, however the run goes on, the task of every call is begun once and finished once when it comes to rest. |
| WorkerPool.BusyPoolGrows | common/async/async.go:206-209 | In every run, a call that finds a worker idle goes on to send; one that finds all started workers busy, below the limit, has seen another one started by the time it sends, whatever happens in between. |
| ResettableTimer.CTimer.BeginWindow | common/ctimer/CTimer.go:73-80 | A window begins with nothing accumulated, unless the timer is cancelled. |
| ResettableTimer.CTimer.Wake | common/ctimer/CTimer.go:81-91 | A cancelled timer stops, one that was reset sleeps again for the accumulated time, any other runs its job. |
| ResettableTimer.CTimer.Reset | common/ctimer/CTimer.go:94-104 | A sleeping timer accumulates the time since its start time, which moves to now; an idle one is started. |
| ResettableTimer.CTimer.Cancel | common/ctimer/CTimer.go:106-110 | Cancels a waiting or running timer, and not one that was reset. |
| ResettableTimer.StepKeepsInv | common/ctimer/CTimer.go:73-104 | Every event keeps: accumulated intervals telescope to last reset minus window start; windows never grow. |
| ResettableTimer.LastResetIsRecorded | common/ctimer/CTimer.go:94-104 | The time accounted for is that of the last reset among the events. |
| ResettableTimer.FireTime | common/ctimer/CTimer.go:73-104 | For every run without cancellation: the job has run exactly if the timer sleeps no more, once, at last reset plus the length of the window that reset fell in; that is last reset plus interval exactly if that window had full length, as it has when all resets fall in the first window. |
| ResettableTimer.FiresWhenLeftAlone | common/ctimer/CTimer.go:80-91 | Left alone, a sleeping timer runs its job after at most two wake-ups. |
| ResettableTimer.CancelExact | common/ctimer/CTimer.go:81-110 | A cancellation stops a sleeping timer if and only if it was not reset in the window. |
| CachedStore.AtoiItoa | hub_server/modules/client_manager/client_store/CachedClientMySqlStore.go:132-139 | Every machine integer survives printing and reading. |
| CachedStore.EncodedFields | hub_server/modules/client_manager/client_store/CachedClientMySqlStore.go:118-124 | Merging the encoded fields into any older hash leaves exactly their values under their names. |
| CachedStore.EntityRoundTrip | hub_server/modules/client_manager/client_store/CachedClientMySqlStore.go:113-141 | Decoding what was encoded, over any older fields, gives what the table keeps; that is the client itself if and only if its role is the client role. |
| CachedStore.RedisCachedStore.Get | common/redis/redis_cached_store.go:67-95 | A hit decodes the hash, a miss reads the table and fills the cache, with the early returns of the code for each failure; when it answers, and with what, is the exact law below. |
| CachedStore.RedisCachedStore.Update | common/redis/redis_cached_store.go:97-130 | Cache then table or table then cache, according to the policy; the second action is not tried if the first fails. |
| CachedStore.RedisCachedStore.Create | common/redis/redis_cached_store.go:132-144 | The table first; the cache only if configured. |
| CachedStore.ApplyKeepsInv | common/redis/redis_cached_store.go:67-144 | Every call under any failures keeps cache and table in agreement for all ids but those whose last effective update stopped halfway. |
| CachedStore.GetIsFresh | common/redis/redis_cached_store.go:67-144 | Over every run, with any failures and either policy: for every other id Get returns an error or exactly the table's value. |
| CachedStore.GetExact | common/redis/redis_cached_store.go:67-95 | Over every run, with any failures and either policy: for such an id Get answers if and only if the cache read works and the id is cached, or the table read works, the id is there, and the cache write works or its failure is skipped; the answer is the table's value. |
| CachedStore.GetFillsCache | common/redis/redis_cached_store.go:83-92 | A Get that answers leaves the entity cached if the cache can be written, and no Get touches the table. |
| CachedStore.WriteExact | common/redis/redis_cached_store.go:97-144 | A write reports success if and only if all its actions work and a created id is new; then the table holds the client and the cache too where it is written, and no other id is touched. |
| CachedStore.RefusedWrites | common/redis/redis_cached_store.go:97-144 | A write whose first action fails changes nothing, and a creation does not touch the cache unless configured. |
| CachedStore.ReadYourWrites | common/redis/redis_cached_store.go:67-144 | After any run, a write that reported success and any reads, Get answers with what was written if it can answer at all. |
| CachedStore.DivergesExactly | common/redis/redis_cached_store.go:97-130 | A step makes a cached entry differ from the table if and only if it is an update that stopped after its first action and what was written differs from what was not. |
| RelayExecutor.RelayServiceRequestExecutor.DoRequest | hub_server/request/ServiceRequestExecutor.go:102-115 | Connections are tried in cyclic order after the last index, none twice; the result is that of the first that answers, or of the last one if none does; it is an answer if and only if some connection would give one; without connections it is the fixed error. |
| RelayExecutor.AttemptsExact | hub_server/request/ServiceRequestExecutor.go:107-113 | All connections tried before the last one failed, and the last one failed too only if none was left. |
| RelayExecutor.AnsweredExactly | hub_server/request/ServiceRequestExecutor.go:107-113 | A request is answered if and only if some connection would answer it. |
| RelayExecutor.RoundVisitsAll | hub_server/request/ServiceRequestExecutor.go:107-109 | In one round every index has its turn exactly once. |
| RelayExecutor.TurnsSpread | hub_server/request/ServiceRequestExecutor.go:107-109 | Whatever fails, any number of attempts in a row is spread evenly, up to one, and exactly evenly after whole rounds. |
| RelayExecutor.HealthySpread | hub_server/request/ServiceRequestExecutor.go:102-115 | m·n requests over n connections that answer go to each of them exactly m times. |
| RelayExecutor.RelayServiceRequestExecutor.UpdateConnections | hub_server/request/ServiceRequestExecutor.go:76-87 | Deleting dead entries in place with the index stepped back leaves exactly the live ones in order, and distinct addresses stay distinct. |
| RelayExecutor.KeptExactly | hub_server/request/ServiceRequestExecutor.go:76-87 | What is kept are exactly the live connections of the list, and distinct addresses stay distinct. |
| RelayExecutor.KeptAtPlaces | hub_server/request/ServiceRequestExecutor.go:76-87 | The kept connections are those at the places of live entries, one by one. |
| RelayExecutor.PlacesAscend | hub_server/request/ServiceRequestExecutor.go:76-87 | These places are strictly ascending, so order is preserved. |
| RelayExecutor.RelayServiceRequestExecutor.UpdateProviderConnection | hub_server/request/ServiceRequestExecutor.go:117-135 | A connection is appended if and only if its address is new and known to the manager; addresses stay distinct. |
| LinkedList.LinkedList.Append | common/data_structures/LinkedList.go:251-269 | The list spells the old values followed by the new one, forwards and backwards. |
| LinkedList.LinkedList.Prepend | common/data_structures/LinkedList.go:271-289 | The list spells the new value followed by the old ones, forwards and backwards. |
| LinkedList.LinkedList.InitFirstNode | common/data_structures/LinkedList.go:142-148 | The empty list becomes the list of one value. |
| LinkedList.LinkedList.InsertAfterNode | common/data_structures/LinkedList.go:170-188 | At any place, the chain is the old one with the new node linked in behind it in both directions. |
| LinkedList.LinkedList.InsertBeforeNode | common/data_structures/LinkedList.go:150-168 | At any place, the chain is the old one with the new node linked in before it in both directions. |
| LinkedList.LinkedList.RemoveOnNode | common/data_structures/LinkedList.go:215-229 | At any place, the chain is the old one without the node. |
| LinkedList.LinkedList.Poll | common/data_structures/LinkedList.go:292-299 | Takes off and returns the first value; the list is consistent afterwards if and only if it did not hold exactly one. |
| LinkedList.LinkedList.Pop | common/data_structures/LinkedList.go:302-309 | Takes off and returns the last value; the list is consistent afterwards if and only if it did not hold exactly one. |
| LinkedList.LinkedList.GetNode | common/data_structures/LinkedList.go:113-140 | The node of the index if and only if that is at most size/2 or the last one; between them the node two places before it; nil outside the list. |
| LinkedList.LinkedList.Get | common/data_structures/LinkedList.go:207-213 | The value at the place that GetNode finds. |
| LinkedList.LinkedList.ForEach | common/data_structures/LinkedList.go:311-322 | The callback receives every value with its index, in order, once. |
| LinkedList.LinkedList.ToSlice | common/data_structures/LinkedList.go:332-338 | A fresh slice of exactly the values. |
| LinkedList.LinkedList.Insert | common/data_structures/LinkedList.go:190-205 | Inserts at the place that GetNode finds; the list is consistent afterwards unless the value went before an existing first node. |
| LinkedList.LinkedList.Remove | common/data_structures/LinkedList.go:215-245 | Removes and returns the value at the place that GetNode finds; the list is consistent afterwards if and only if that was neither the first nor the last one. |

## Left out

- Removal from the trie (`remove`, `clean`, `Remove`, `RemoveAll`): it also clears the parent's other children, so no route-table law holds after it.
- `r_path` of the trie, `Clear` and `String` of the tree: output and reset helpers.
- The `parent` and `t` fields of a trie node, which only the removal and `r_path` read.
- `Delete` of the cached store: its cache part calls itself and does not end.
- `Stop` of the worker pool: its workers never leave their loop, so the laws are about pools that are not stopped.
- `Repeat` of the timer: a cancelled repetition returns to idle and goes on.
- `KillAll` and `CancelAll`: they are sequences of the modelled `Kill` and `Cancel` steps; their error collection is not modelled.
- Races inside `scheduleJob`, `Schedule` of the task queue and `IncreaseWorkerSizeTo`, whose check and write are taken as one step.
- Panicking tasks, blocking of `Get` on a barrier, and wake-up of waiters: only the stored state is modelled.
- Aliases of the connection slice held by callers of `GetProviderConnections`: the slice is a field that the methods reassign.
- `Map`, `Search`, `IndexOf` and `Has` of the list: easy consequences of `ForEach`.
- What the list does after one of the calls that leave it inconsistent.
- The list's locks, which only make each method atomic.
- The empty-interface type conversions of the cached store, whose failures the client store never meets.
- Network, database, Redis, token and serialisation code, dependency injection, logging, metering, configuration and service endpoints.
