# Verified model of the server's hard algorithms

A multiplayer world server keeps its tiles in a quadtree, searches paths and sight lines over them, loads
escaped node files through a block cache, stores nested items as database rows and as binary blobs, keeps the
weight of nested containers up to date, shuts connections down while reads and writes are in flight, hashes
with MD5, and spreads damage over turns. The modules below model these parts and prove what they are for.

| module | models |
|---|---|
| `QuadTree`, `Prefix`, `Spectators` | the world index, its leaf links, and the scan for nearby creatures |
| `AStarNodes`, `PathQuery`, `PathPrice`, `PathCorners`, `PathMatching`, `PathTo` | the node pool, what walks cost, and the two path searches |
| `SightLine` | the line-of-sight ray |
| `NodeFile`, `NodeGrammar`, `NodeParser`, `NodeCuts`, `BlockCache`, `Masks` | the escaped node-tree file, what its parser accepts, and the read cache |
| `ItemRows` | items as (sid, pid) rows and the rebuild |
| `ItemFormat`, `ItemGrammar`, `ItemBinary`, `PropStreams`, `Bytes` | items as bytes |
| `AttributeList` | the linked attribute list with its mask |
| `ContainerForest`, `ContainerWalk` | cached weights of nested containers, and the container iterator |
| `ConnectionProtocol`, `ConnectionRuns` | closing a connection, and what its runs come to |
| `Md5Block`, `Md5`, `Md5Example` | MD5 in pieces, and one digest of the standard's test suite |
| `DamageList` | the damage list |
| `Arithmetic` | shared facts about integers |

Objects whose methods update them are classes whose methods are proved against functions of the old state;
what the source promises is then proved of those functions, over every input, every run or every reachable
state. Ghost parameters (a tree, a set of objects, a message so far) only serve the contracts.

Where the code does not do what one would expect, the model follows the code and says exactly when it does:

- The direction list of `getPathMatching` loses a step where 16-bit coordinates wrap around; it replays its walk
  if and only if no step wraps, which is sure for calls bounded below 2^15, or made 99 tiles (511 with a
  distance) from the border (`PathMatching.GetPathMatching`). `PathMatching.SeamSearch` is a call that finds its
  target and returns no direction. A list of `getPathTo` always leads to the destination, because no node far
  enough for a wrap is ever expanded (`PathTo.PathReplays`).
- `getPathTo` never finds a destination estimated at 100000 or more, because `getBestNode` only takes nodes
  below that (`PathTo.GetPathTo`), not even the tile across the seam (`PathTo.SeamTripIsRefused`).
- A diagonal step across one seam is charged 10 like a straight one, because its differences are 65535 and 1
  (`PathPrice.SeamDiagonalIsCheap`).
- A connection whose read is aborted before a close is requested waits for nothing and stays open
  (`ConnectionRuns.EveryRunIsExplained`).
- Seeking beyond the end of a file always succeeds directly, but through the cache only where a block can be
  loaded or is at hand (`BlockCache.FileReader.SafeSeek`, example in `BlockCache.SeekBeyondEnd`).
- A read through the cache that passes the end of the file never ends: there a turn of its loop reads nothing
  (`BlockCache.FileReader.ReadPart`).
- A node file may go on behind the end byte of its root: after another end byte anything is accepted unread
  (`NodeCuts.AfterRoot`). A file that is cut off is always refused (`NodeCuts.CutIsRefused`), but an item that is cut
  off between two attributes, or before the mark that ends a container, is taken as it is
  (`ItemGrammar.CutAttributes`, `ItemGrammar.CutItem`).
- Opposite rays of a sight line differ exactly at points halfway between two tiles (`SightLine.RaysMeet`).
- Saving and loading an item once is not always final: a negative duration first becomes zero and only the
  next time the default, and a fluid item with charges takes its charges for its fluid. `ItemFormat.NormIdempotent`
  says exactly for which items a second save and load changes nothing (example in `ItemFormat.NotFinalAtOnce`).
- A stackable item with charges loses its count (`ItemFormat.CountSurvives`, example in `ItemFormat.CountIsLost`).
- Setting a text attribute to the empty text leaves the old text (`AttributeList.EmptyTextIsIgnored`).
- The damage list adds up to the amount if and only if the amount is at least 1 + ... + start, and to
  1 + ... + start otherwise (`DamageList.GenerateDamageList`).
- The test in `closeConnectionTask` for an unexpected state never fires
  (`ConnectionProtocol.RequestIsCarriedOut`).

## Model

| member | source | states |
|---|---|---|
| QuadTree.Map.SetTile | font/map.cpp:150-195 | the tiles stored are the old ones plus this one unless the place is off the map or taken; every leaf stays linked to its neighbours; no node is lost or replaced |
| QuadTree.Map.GetTile | font/map.cpp:122-148 | the tile stored at the place, and none anywhere else |
| QuadTree.RunSetTile | font/map.cpp:150-195 | after any sequence of calls the tree holds what folding them into a map gives, starting from nothing |
| QuadTree.FirstStored | font/map.cpp:183-194 | of the tiles set at one place on the map the first stays; a place never set, or off the map, has none |
| QuadTree.Map.GetLeaf | font/map.cpp:1185-1203 | the leaf of the block a position lies in, or none, whatever the coordinates beyond 16 bits |
| QuadTree.QTreeNode.GetLeaf | font/map.cpp:1185-1203 | the recursive descent with shifted coordinates finds the node under the full key of the position |
| QuadTree.QTreeNode.GetLeafStatic | font/map.cpp:1205-1230 | the iterative descent answers the same as the recursive one: both equal the lookup by key |
| QuadTree.QTreeNode.CreateLeaf | font/map.cpp:1232-1257 | a leaf for the position exists afterwards, it was created exactly if it was missing, and only nodes on its path are new |
| QuadTree.QTreeNode.AddChild | font/map.cpp:1235-1252 | a missing child is added under its key; every other node of the tree is as before |
| QuadTree.Map.LinkNewLeaf | font/map.cpp:160-180 | a new leaf gets its four neighbour links, modulo 2^16, and all others keep theirs |
| QuadTree.Map.SetSouth | font/map.cpp:163-173 | the south link of one node changes and no other link in the tree |
| QuadTree.Map.SetEast | font/map.cpp:164-178 | the east link of one node changes and no other link in the tree |
| QuadTree.Map.MakeLeaf | font/map.cpp:157-181 | the leaf of a position exists, all leaves are linked, what was stored stays stored |
| QuadTree.Map.PutTile | font/map.cpp:183-194 | an empty place takes the tile and its leaf, a taken one stays; nothing else changes |
| QuadTree.KeysAround | font/map.cpp:163-178 | adding or subtracting 8 modulo 2^16 leads to the key of the neighbouring block |
| QuadTree.NeighboursInverse | font/map.cpp:163-178 | west undoes east and north undoes south, so each link has exactly one leaf to set it |
| QuadTree.SwapAndPop | font/map.h:310-315 | swapping with the last and dropping it removes exactly one occurrence |
| QuadTree.QTreeNode.AddCreature | font/map.h:306-308 | the creature is appended |
| QuadTree.QTreeNode.RemoveCreature | font/map.h:310-315 | exactly that creature leaves the list |
| Prefix.NextKey | font/map.cpp:1192-1200 | the top bits of the shifted coordinates select the child whose key is one bit longer |
| Spectators.GetSpectatorsInternal | font/map.cpp:309-389 | the scan along the links adds every creature of the map whose floor-shifted coordinates are in range, each exactly once, skipping those listed if asked to, and nothing else |
| Spectators.ScanRow | font/map.cpp:345-388 | one row of blocks adds exactly the wanted creatures of that row |
| Spectators.ScanBlock | font/map.cpp:348-385 | one block, present or not, adds exactly its wanted creatures and leads to the next |
| Spectators.ScanLeaf | font/map.cpp:353-379 | the creatures of a leaf that are in range are appended, none twice |
| Spectators.AreaCovers | font/map.cpp:320-343 | every position in range lies in the scanned area, clamped at the borders of the map |
| Spectators.NextBlock | font/map.cpp:345-387 | following east and south links leads to the block 8 further, or to nothing exactly where there is no leaf |
| Spectators.HomeOf | font/map.cpp:353-379 | a creature is found in the leaf covering its position and in no other |
| Spectators.OnSameFloor | font/map.cpp:355-372 | on the floor of the centre the limits of the range are included on all axes |
| Spectators.FloorsShift | font/map.cpp:355-372 | each floor up shifts what is seen by one tile south-east |
| AStarNodes.Pool.CreateOpenNode | font/map.cpp:1012-1022 | the next slot is opened, or none of 512 is left; other nodes stay |
| AStarNodes.Pool.GetBestNode | font/map.cpp:1024-1046 | the first open node of least f below 100000, or none if there is none |
| AStarNodes.Pool.CountClosedNodes | font/map.cpp:1072-1081 | the number of used nodes that are not open |
| AStarNodes.Pool.GetNodeInList | font/map.cpp:1104-1113 | the first node at the position, or none |
| AStarNodes.BoxFits | font/map.h:44 | distinct positions at most 10 away number at most 441 and fit the pool |
| PathQuery.PathConditionMeaning | font/map.cpp:883-893 | the stateful target condition called here (`FrozenPathingConditionCall`, body in font/creature.cpp) accepts exactly the exact tiles, and those partial ones that are farther than the best so far |
| PathQuery.RangeMeans | font/map.cpp:904-908 | in range is what is within the target distance on both axes and, unless the search is a full one, not behind the target as seen from the start |
| PathQuery.EnterMeans | font/map.cpp:898-910 | what a search may enter |
| PathQuery.StepMeans | font/map.cpp:857-867 | a step leads to any of the eight tiles around, or of the four beside where diagonals are not allowed |
| PathQuery.WalkReplays | font/map.cpp:955-998 | the direction list of a walk leads back along it if and only if no step wraps around |
| PathQuery.ReplayDirs | font/map.cpp:955-998 | the same for any linked positions |
| PathQuery.StepDirection | font/map.cpp:966-994 | a step pushes one right direction if and only if it does not wrap, and never two |
| PathQuery.BoundedSearchNeverWraps | font/map.cpp:898-906 | no walk within a search distance below 2^15 wraps |
| PathQuery.InlandNeverWraps | font/map.cpp:898-899 | a path with no more steps than its start is tiles from the border does not wrap |
| PathQuery.SeamStepIsLost | font/map.cpp:966-994 | a walk of one step across the seam to an exact tile, whose direction list is empty |
| PathPrice.StepIsPriced | font/map.cpp:1115-1128 | where nothing wraps a straight step costs 10 and a diagonal one 25 |
| PathPrice.TileIsPriced | font/map.cpp:1130-1145 | 30 for a creature on a tile and 30 for a harmful field |
| PathPrice.CostIsPrice | font/map.cpp:914-917 | the cost of a walk that does not wrap is 10 and 25 times its straight and diagonal steps and 30 times the creatures and the fields on the tiles entered |
| PathPrice.DirectionsCount | font/map.cpp:955-998 | the straight and diagonal entries of its direction list are its straight and diagonal steps |
| PathPrice.SeamDiagonalIsCheap | font/map.cpp:1119-1125 | a diagonal step across one seam that is charged 10 |
| PathCorners.Detour | font/map.cpp:893-943 | what a walk costs with one step replaced by two |
| PathCorners.CheapestCorners | font/map.cpp:893-943 | a cheapest walk goes diagonally only where neither corner can be entered free of extra cost |
| PathMatching.GetPathMatching | font/map.cpp:836-1001 | nodes are taken in order of cost, each at the cost of a walk to it, none twice, at most 512, or 100 without a distance; a found path is a walk to an accepted tile, replayed by its directions if and only if no step wraps, and then costs 10 and 25 for each straight and diagonal direction and 30 for each creature and field; the pool suffices but for distances of 11 and more, and then the walk is cheapest and passes no free corner diagonally; a search that ends on its own gives the best answer there is, any other the best among the walks that cost less than the last node taken while the pool sufficed; when the pool runs out it ends if nothing was found, else it goes on until all 512 nodes are taken or one is exact |
| PathMatching.PopIsLeast | font/map.cpp:873-951 | a node taken while the pool has sufficed costs no more than any walk to its tile |
| PathMatching.CheapestSoFar | font/map.cpp:873-951 | any walk ends at a listed node that is no dearer, or costs at least as much as every open node |
| PathMatching.WalkOfCost | font/map.cpp:917-940 | the parents of a node spell a walk whose cost is its f |
| PathMatching.ExactIsNearest | font/map.cpp:876-892 | the first exact tile taken is a nearest one |
| PathMatching.AllSeen | font/map.cpp:873-951 | with nothing open, no walk ends on an exact tile and none on a better partial one than was found |
| PathMatching.SentinelNeverHides | font/map.cpp:1024-1046 | costs never reach 100000, so no open node is missed |
| PathMatching.PoolSuffices | font/map.cpp:873-927 | the pool runs out only if the search distance is at least 11: a smaller box fits it, and without a distance 100 expansions add at most 503 nodes |
| PathMatching.ParentCovers | font/map.cpp:893-943 | what lies around the parent of a node, itself included, is listed before the node is expanded |
| PathMatching.GrowthAtMost5 | font/map.cpp:855-867 | of the eight directions of a node at most five lead away from its parent |
| PathMatching.SizedNext | font/map.cpp:873-951 | there are at most 4 + 5 c nodes once c are closed |
| PathMatching.WalkFits | font/map.cpp:953-1000 | a walk has no more tiles than nodes have been taken |
| PathMatching.SeenTurn | font/map.cpp:873-951 | at every turn all walks cheaper than the last node taken while the pool sufficed end on no match, or on none better than was found |
| PathMatching.MatchReplays | font/map.cpp:955-998 | which calls are sure to get directions that lead along the walk |
| PathMatching.WalkIsPriced | font/map.cpp:914-998 | the cost of a found walk by the entries of its direction list |
| PathMatching.SeamSearch | font/map.cpp:836-1001 | a call that answers yes with an empty direction list although the target is one tile away |
| PathMatching.RelaxNeighbour | font/map.cpp:894-940 | one neighbour is entered, bettered or left; closed nodes are neither rewritten nor reopened |
| PathMatching.Expand | font/map.cpp:893-943 | all neighbours of a node are relaxed, or the pool ran out; the start adds at most eight nodes, any other at most five |
| PathMatching.ExpandBest | font/map.cpp:873-951 | one turn of the loop keeps order, optimality, the best match and the bound on nodes; without a distance nodes never run out |
| PathMatching.Search | font/map.cpp:853-951 | the loop ends with what the answer promises, and terminates |
| PathMatching.BuildDirections | font/map.cpp:953-1000 | following parents backwards with push-front gives the directions of the walk in order |
| PathTo.GetPathTo | font/map.cpp:679-833 | a returned list is that of a path over enterable tiles to the destination, leads along it when replayed, and costs, by counts of steps, creatures and fields, at most a quarter more than any way that does not wrap; a search that ends on its own without an answer leaves no way but past tiles the sentinel hides, and one without a distance is cut short exactly when 100 nodes are closed; with a distance of at most 10 and an estimate below 100000 the path is found if and only if one exists and start and destination differ; from 100000 on nothing is found; an unreachable destination tile leaves the list alone |
| PathTo.Search | font/map.cpp:714-795 | the search terminates although nodes are reopened, and leaves a tree of parents |
| PathTo.LookAt | font/map.cpp:741-784 | each look uses a slot, lowers a g or changes nothing, keeping parents acyclic; afterwards the neighbour is listed at no more than the g of its node, the step and the tile together |
| PathTo.WayIsSearched | font/map.cpp:714-795 | any way back is searched up to an open node listed at no more than it costs up to there, or to its end |
| PathTo.RestCovers | font/map.cpp:745-747 | what is left of a way costs at least 10 for each unit it still has to cover |
| PathTo.EstimateIs | font/map.cpp:1147-1154 | the estimate is 10 for the longer distance and 15 for the shorter one, so at most 5/4 of what is left |
| PathTo.EnterableMeans | font/map.cpp:735-741 | what that search may enter |
| PathTo.ClosesOne | font/map.cpp:786 | a turn closes one node at most |
| PathTo.TakenNearlyCheapest | font/map.cpp:714-733 | when the creature is reached its g is at most 5/4 of the cost of any way back that does not wrap |
| PathTo.PathIsPaid | font/map.cpp:778-783 | the way behind a node costs no more than its g |
| PathTo.AnswerPrice | font/map.cpp:714-831 | the same, with costs counted by steps and tiles |
| PathTo.PathOfIsPath | font/map.cpp:797-831 | the parents of a node spell a linked path to the destination over enterable tiles |
| PathTo.NoWayBack | font/map.cpp:726-795 | with nothing left to take, no path leads from the destination to the start over tiles the sentinel cannot hide |
| PathTo.NothingHidden | font/map.cpp:1024-1046 | the sentinel hides no tile whose estimate leaves room for the greatest cost |
| PathTo.PathReplays | font/map.cpp:714-831 | whatever the search distance, the directions of a found path lead along it |
| PathTo.PathNear | font/map.cpp:1024-1046 | every tile of a found path is within 9999 of the creature, because only nodes below the sentinel become parents |
| PathTo.NearInSight | font/map.cpp:726-795 | a search within 10 tiles to a destination that is not hidden hides nothing |
| PathTo.SeamTripIsRefused | font/map.cpp:1024-1046 | a trip of one tile across the seam that is refused although there is a way |
| SightLine.CheckSightLine | font/map.cpp:540-645 | true exactly when no point of the rounded line but its ends blocks, and no tile lies between floors where it changes floor |
| SightLine.IsSightClear | font/map.cpp:647-658 | clear when one of the two opposite lines is, on one floor if that is asked |
| SightLine.SameFloorLine | font/map.cpp:600-621 | on one floor the line is clear exactly when no inner point of it blocks |
| SightLine.FirstCheckAtStart | font/map.cpp:551-598 | the first floor change is looked for over the start exactly when the line runs along x, ties going to x before y before z, or the exchanged coordinates of the start are equal |
| SightLine.RoundError | font/map.cpp:624-633 | the minor offset stays within half a step of the true line |
| SightLine.RoundStep | font/map.cpp:624-633 | adding the minor span and carrying at half keeps the error term exact |
| SightLine.RayEnds | font/map.cpp:578-588 | the line starts at one end and reaches the other exactly at its last step |
| SightLine.RayInBox | font/map.cpp:578-633 | it never leaves the box of its ends |
| SightLine.RaysMeet | font/map.cpp:655-657 | opposite rays pass the same point exactly where on no axis `k * d / D` is a whole number and a half |
| SightLine.OddSpanSymmetric | font/map.cpp:655-657 | with an odd span on one floor both rays agree |
| SightLine.RoundReversed | font/map.cpp:624-633 | reversing a line mirrors its offsets but for halves |
| BlockCache.CacheSizes | font/fileloader.cpp:90 | the block size is one of four, one of them no power of two |
| BlockCache.ServeRun | font/fileloader.cpp:317-393 | any sequence of seeks, tells, byte and block reads inside a file gets the answers a plain byte sequence gives, cached or not |
| BlockCache.ServeOne | font/fileloader.cpp:435-478 | one request is answered as by a plain byte sequence and leaves the position there |
| BlockCache.FileReader.GetCacheBlock | font/fileloader.cpp:480-497 | the block of the position, at hand or loaded; none exactly if it can be neither |
| BlockCache.FileReader.LoadCacheBlock | font/fileloader.cpp:499-545 | loaded blocks hold what the file holds at their base, under any eviction; only the block that gives way changes |
| BlockCache.FileReader.ChooseBlock | font/fileloader.cpp:501-521 | the first unused block gives way; when all are used, the first more than two block sizes off, and when none is, the first |
| BlockCache.FileReader.SafeSeek | font/fileloader.cpp:435-454 | the position moves; beyond the end the cached way succeeds exactly if a block can be loaded or is at hand |
| BlockCache.SeekBeyondEnd | font/fileloader.cpp:435-454 | a seek that succeeds directly and fails through the cache |
| BlockCache.FileReader.SafeTell | font/fileloader.cpp:456-478 | the position of the byte read last |
| BlockCache.FileReader.ReadByte | font/fileloader.cpp:317-349 | the byte at the position, which moves on; at the end it fails and stays |
| BlockCache.FileReader.ReadBytes | font/fileloader.cpp:351-395 | exactly the bytes asked for reach the buffer, the rest of it stays; directly, a read that passes the end gets what there is and fails |
| BlockCache.FileReader.ReadPart | font/fileloader.cpp:357-384 | one turn copies as much as one block holds, and nothing exactly at the end of the file |
| NodeFile.EscapeRoundTrip | font/fileloader.h:137-156 | unescaping restores whatever bytes were escaped |
| NodeFile.EscapedBytes | font/fileloader.h:137-156 | 0xFD, 0xFE and 0xFF are written after a 0xFD, other bytes as they are |
| NodeFile.NodeMarks | font/fileloader.cpp:265-285 | a node stands between a 0xFE and a 0xFF |
| NodeFile.PlainTypeLayout | font/fileloader.cpp:274-279 | the byte after a start mark is the type if and only if the type needs no escape |
| NodeFile.FileWriter.WriteData | font/fileloader.h:137-156 | the data is appended escaped, or as it is |
| NodeFile.FileWriter.WriteTree | font/fileloader.cpp:265-285 | a tree written node by node is the file format of the tree |
| NodeParser.WriteAndLoad | font/fileloader.cpp:61-207 | writing any tree of plain types and loading it, cached or not, yields nodes that describe that tree |
| NodeParser.ReadProps | font/fileloader.cpp:209-248 | the properties of every loaded node are the bytes written for it |
| NodeParser.ReadTree | font/fileloader.cpp:209-248 | walking children, siblings and properties of the loaded nodes gives back the tree |
| NodeParser.WriteAndRead | font/fileloader.cpp:61-285 | a tree written, loaded and read back is the same tree, cached or not |
| NodeParser.ParseNode | font/fileloader.cpp:120-207 | a node and its next siblings are parsed from exactly their bytes, up to the parent's end byte; of any bytes at all it accepts exactly those whose marks fit together, and stops where they end |
| NodeParser.ParseBody | font/fileloader.cpp:130-180 | one node up to its end byte: type, size of properties, children; it fails exactly where the file ends first or a row of children is malformed |
| NodeParser.ParseChildren | font/fileloader.cpp:140-152 | the children of a node are parsed in turn and the first one is linked; the size of the properties is what lies before them |
| NodeParser.StepBack | font/fileloader.cpp:189-198 | the end byte of the parent is given back |
| NodeParser.CursorProp | font/fileloader.cpp:166-172 | no byte inside escaped properties is taken for a mark |
| NodeParser.NodeLayout | font/fileloader.cpp:120-207 | where start, type, properties, children and end of an encoded node are |
| NodeParser.PropBuffer.UnescapeInPlace | font/fileloader.cpp:226-244 | unescaping within one buffer never overtakes itself and gives the bytes |
| NodeParser.PropBuffer.GetProps | font/fileloader.cpp:209-248 | the properties of a node, unescaped, in a buffer grown by 1024 bytes exactly if they would fill it |
| NodeParser.OpenFile | font/fileloader.cpp:61-117 | a file of version zero and one encoded tree gives its root; a file is opened exactly if it has version zero, a start mark and siblings whose marks fit together |
| NodeGrammar.CutBody | font/fileloader.cpp:128-203 | cut before its end a node has no end, cut after it the same one |
| NodeGrammar.CutSiblings | font/fileloader.cpp:120-207 | siblings that are cut off are refused, or end with the file |
| NodeCuts.BodyOf | font/fileloader.cpp:128-203 | a node encoded anywhere ends exactly behind its bytes |
| NodeCuts.CutIsRefused | font/fileloader.cpp:61-207 | a written file that is cut off anywhere cannot be opened |
| NodeCuts.AfterRoot | font/fileloader.cpp:159-191 | a file that goes on after its root is accepted exactly if an end byte follows, whatever comes then, or well-formed siblings |
| NodeCuts.LoadCut | font/fileloader.cpp:61-207 | writing a tree and loading the first k bytes succeeds exactly if those are all of them, cached or not |
| ItemRows.SaveItems | font/ioplayer.cpp:358-422 | the rows list the forest breadth-first with running ids 101, 102 and so on, each child under the id of its parent, all of it and nothing else |
| ItemRows.SaveContents | font/ioplayer.cpp:396-418 | the contents of one container become the next rows in order, and containers among them are queued |
| ItemRows.LoadItems | font/ioplayer.cpp:922-946 | the map holds an item of its own for each id, made from the last row with it, of known types only |
| ItemRows.Rebuild | font/ioplayer.cpp:252-265 | for any map, each container holds exactly the items naming it by ascending id, and each place the item with the greatest id it takes |
| ItemRows.PutAway | font/ioplayer.cpp:285-304 | one item goes to its place, to the front of its parent, or nowhere |
| ItemRows.AnyOrder | font/ioplayer.cpp:922-946 | rows read back in any order give the same map |
| ItemRows.NamesParent | font/ioplayer.cpp:255-262 | a row names a row exactly if it is its child: no id is mistaken for a slot or depot |
| ItemRows.KidsAreBlock | font/ioplayer.cpp:252-265 | the items naming a row are its block of rows in order |
| ItemRows.RowMatches | font/ioplayer.cpp:252-265 | after the rebuild each item is the one its row was saved from, with the same contents in the same order |
| ItemRows.TopsPlaced | font/ioplayer.cpp:285-295 | exactly the top items are in places, each in its own |
| ItemRows.LoadForest | font/ioplayer.cpp:249-304 | saving a forest and loading its rows in any order restores every place with the same items in the same order |
| ItemRows.SaveInventory | font/ioplayer.cpp:600-612 | the items of the slots from 1 to 10 are saved, each under its slot |
| ItemRows.LoadInventory | font/ioplayer.cpp:239-270 | whatever the order of the rows, every slot from 1 to 10 has the item it was saved with, or none |
| ItemRows.LoadDepots | font/ioplayer.cpp:274-312 | so has every depot from 0 to 99; other ids are never put back |
| Bytes.LittleRoundTrip | font/fileloader.h:328-338 | a value of any width is read back modulo its range |
| PropStreams.PropStream.GetValue | font/fileloader.h:328-338 | a fixed-width value, or failure without moving |
| PropStreams.PropStream.GetString | font/fileloader.h:258-275 | a 16-bit length and that many bytes; a length without its bytes fails |
| PropStreams.PropWriteStream.AddString | font/fileloader.h:389-401 | a string cut to its 16-bit length is appended |
| ItemFormat.FieldsNormalise | font/item.cpp:475-528 | reading back the fields written for an item gives its normal form: counts and charges cut to a byte, action id of moveable items only and at least 100, unique id and owner dropped, zero duration the default, decay pending |
| ItemFormat.NormIdempotent | font/iomapserialize.cpp:606-626 | a second save and load changes nothing exactly when every item settles at once |
| ItemFormat.SettlesAtOnce | font/item.cpp:344-370 | an item settles exactly when its duration does not pass through zero and its charges do not become its fluid |
| ItemFormat.SettlesSecond | font/iomapserialize.cpp:452-480 | what was loaded once settles exactly when the default duration does not overflow or was not needed |
| ItemFormat.SettledAfterOne | font/iomapserialize.cpp:452-480 | the same for trees |
| ItemFormat.SameBytesAgain | font/iomapserialize.cpp:606-626 | saving what was loaded gives the same bytes again, from the first time where all settles and from the second where no default overflows |
| ItemFormat.NotFinalAtOnce | font/item.cpp:454-528 | a duration that changes on each of two loads |
| ItemFormat.SubTypeSurvives | font/item.cpp:218-262 | the sub type survives exactly when it fits a byte and fluid and charges do not clash |
| ItemFormat.CountSurvives | font/item.cpp:475-487 | a stackable item keeps its count exactly when its type has no charges |
| ItemFormat.CountIsLost | font/item.cpp:475-528 | five of a stackable item with charges come back as one |
| ItemFormat.Tag | font/item.h:79-105 | no attribute type is taken for the end of the list or for container items |
| ItemFormat.TagNumbers | font/item.h:80-104 | the numbers of the attribute types |
| ItemFormat.BlankIs | font/item.cpp:111-135 | what a new item has |
| ItemFormat.DecayStates | font/item.cpp:357-371 | a decay that has begun becomes one that is due |
| ItemFormat.BytesOfABag | font/iomapserialize.cpp:606-626 | the bytes of a bag with a text and two stacks of coins, one by one |
| ItemBinary.SaveAndLoad | font/iomapserialize.cpp:452-480 | a saved tree is loaded from exactly the bytes written, as its normal form, with contents in their old order |
| ItemBinary.SaveItem | font/iomapserialize.cpp:606-626 | the bytes of an item tree are appended |
| ItemBinary.SaveContents | font/iomapserialize.cpp:614-622 | container mark, size, and the contents last to first |
| ItemBinary.SerializeAttr | font/item.cpp:475-528 | exactly the attributes that are set are written, in order |
| ItemBinary.LoadItem | font/iomapserialize.cpp:452-480 | from the bytes of a tree exactly those are consumed and its normal form goes to the front of the parent; of any other bytes it accepts exactly what the grammar does and stops where that ends; an item of a known id goes to the front, else the parent is left alone |
| ItemBinary.LoadContainer | font/iomapserialize.cpp:431-450 | as many items as announced, in the order they were saved in, then the end mark, which only the end of the data may stand for |
| ItemBinary.UnserializeAttr | font/item.cpp:454-468 | attributes are applied in turn up to the end of the list or the container mark; it fails exactly at an unknown or cut attribute |
| ItemGrammar.CutAttributes | font/item.cpp:454-468 | an attribute list that is cut off between two attributes counts as ended, anywhere else it is refused |
| ItemGrammar.CutItems | font/iomapserialize.cpp:431-450 | items that are cut off are refused or read up to the cut; bytes after the end mark never matter |
| ItemGrammar.CutItem | font/iomapserialize.cpp:452-480 | an item that is cut off is refused or read up to the cut but for one byte; bytes after it never matter |
| ItemBinary.ReadAttr | font/item.cpp:265-452 | one attribute of any type is read and applied, or skipped, or refused; only a container goes on with items |
| ItemBinary.ReadText | font/item.cpp:302-332 | a text is set unless empty |
| ItemBinary.ReadNumber | font/item.cpp:268-371 | a number is set by the rule of its type, a unique id to at least 1000; unknown types are refused |
| ItemBinary.ReadOwnNumber | font/item.cpp:268-371 | count, charges, action id, duration and decay |
| ItemBinary.ReadOver | font/item.cpp:376-436 | the attributes of doors, beds, teleports and depots are read over, in their widths |
| AttributeList.NumberIsLastSet | font/item.cpp:1020-1054 | after any run of operations a number is the one set last plus the increases since modulo 2^32, or only those where it was removed since or never set |
| AttributeList.TextIsLastSet | font/item.cpp:937-970 | a text is the last one set that was not empty, or empty where it was removed since or never set |
| AttributeList.KindsKeepTheirs | font/item.cpp:937-1054 | three kinds keep texts, eight keep numbers, and setting the other sort changes nothing |
| AttributeList.LastSettledIsLast | font/item.cpp:985-1043 | the last operation on a kind that settles its value whatever was there |
| AttributeList.EmptyTextIsIgnored | font/item.cpp:952-970 | an empty text set over another leaves it |
| AttributeList.SetBit | font/item.cpp:1109 | setting the bit of a kind changes the bit of no other |
| AttributeList.ClearBit | font/item.cpp:1000 | clearing it does neither |
| AttributeList.ItemAttributes.SetIntAttr | font/item.cpp:1034-1043 | the map gets the number under its kind; one node and one bit per kind |
| AttributeList.ItemAttributes.IncreaseIntAttr | font/item.cpp:1045-1054 | the number there grows modulo 2^32, from zero if there was none |
| AttributeList.ItemAttributes.SetStrAttr | font/item.cpp:952-970 | the map gets the text under its kind; an empty text changes nothing |
| AttributeList.ItemAttributes.RemoveAttribute | font/item.cpp:985-1018 | the kind leaves map, list and mask, and nothing else does |
| AttributeList.ItemAttributes.GetIntAttr | font/item.cpp:1020-1032 | the number under the kind modulo 2^32, or zero |
| AttributeList.ItemAttributes.GetStrAttr | font/item.cpp:937-950 | the text under the kind, or the empty one |
| AttributeList.ItemAttributes.HasAttribute | font/item.cpp:972-983 | true exactly for numbers that are there |
| AttributeList.ItemAttributes.GetAttrConst | font/item.cpp:1112-1130 | the node of a kind, or none: the bit never promises a node that is not there |
| AttributeList.ItemAttributes.GetAttr | font/item.cpp:1132-1155 | the node of a kind, added at the end if it was not there |
| AttributeList.ItemAttributes.AddAttr | font/item.cpp:1092-1110 | the node becomes the last and its bit is set |
| AttributeList.ItemAttributes.Unlink | font/item.cpp:994-999 | one node leaves the chain, the others keep their order |
| AttributeList.ItemAttributes.Copy | font/item.h:124-129 | the copy has the same map in nodes of its own |
| AttributeList.CopyChain | font/item.h:207-224 | a chain of new nodes with the same entries |
| ContainerForest.WeightsStayExact | font/container.cpp:425-616 | after any run of adding, reweighing, replacing and removing, every cached weight is the recursive weight of the contents |
| ContainerForest.CacheIsExact | font/container.cpp:138-141 | locally right sums make the cached weight the recursive one |
| ContainerForest.StacksAddUp | font/item.cpp:601-608 | a stack weighs what its parts weigh together, its count times what one weighs; none weighs as one |
| ContainerForest.SingleWeight | font/item.cpp:601-608 | the count of other items does not matter |
| ContainerForest.AddRaises | font/container.cpp:449-458 | a stack put in makes every container around heavier by its count times what one weighs |
| ContainerForest.PartLowers | font/container.cpp:578-590 | taking part of a stack makes every container around lighter by as many times what one weighs |
| ContainerForest.CountTaken | font/container.cpp:579 | what is left of a stack |
| ContainerForest.CountOverdrawn | font/container.cpp:579 | nothing is left when more is taken than there is, unless the 32-bit difference turns positive again |
| ContainerForest.TotalsAfter | font/container.cpp:130-136 | the weights around change by the difference, and no others |
| ContainerForest.PerformKeeps | font/container.cpp:425-616 | every operation keeps parents, lists, sums and acyclicity |
| ContainerForest.ChangeKeepsValid | font/container.cpp:130-136 | raising the weights up the parent chain by one difference restores every sum |
| ContainerForest.Item.UpdateItemWeight | font/container.cpp:130-136 | exactly the chain of parents changes, each by the difference |
| ContainerForest.Item.AddThing | font/container.cpp:425-465 | the item is first in the list and weighed in at every level, a stack by its count, unless the index is beyond the capacity |
| ContainerForest.Item.InternalAddThing | font/container.cpp:752-782 | the item is first in the list and weighed in at every level, a stack by its count |
| ContainerForest.Item.UpdateThing | font/container.cpp:467-505 | an item held here gets type and count, cut to a byte, its difference in weight reaches every level; another item changes nothing |
| ContainerForest.Item.ReplaceThing | font/container.cpp:507-554 | the item takes the place of another, which loses its parent; an index out of range changes nothing |
| ContainerForest.Item.RemoveThing | font/container.cpp:556-616 | part of a stack or the item itself leaves, weighed out at every level, the part by its count; an item not held changes nothing |
| ContainerForest.Item.Reweight | font/container.cpp:488-498 | new type and count, and the difference at every level |
| ContainerForest.Item.TakePart | font/container.cpp:578-595 | what is left of a stack, and the weight of what was taken off at every level |
| ContainerForest.Item.TakeOut | font/container.cpp:601-615 | the item leaves the list and loses its parent |
| ContainerForest.Item.Exchange | font/container.cpp:533-553 | one item takes the exact place of another |
| ContainerForest.Item.GetIndexOfThing | font/container.cpp:618-629 | the first index of an item, or -1 exactly if it is not held |
| ContainerForest.Item.QueryAdd | font/container.cpp:250-298 | the answer by the rules in their order; with no error, an item in no container may be added without a cycle |
| ContainerForest.Item.IsAround | font/container.cpp:276-282 | the walk up the parents finds an item exactly if it is one of them |
| ContainerWalk.WalkIsComplete | font/container.cpp:877-899 | a finished walk has passed everything nested at any depth, each exactly once, in breadth-first order |
| ContainerWalk.ContainerIterator.Next | font/container.cpp:877-899 | the item under the cursor is passed, and the cursor stands on a new one or past the last |
| ContainerWalk.ContainerIterator.Current | font/container.cpp:865-870 | the item under the cursor has not been passed before |
| ContainerWalk.ContainerIterator.constructor | font/container.cpp:791-799 | a walk begins with nothing passed |
| ContainerWalk.Step | font/container.cpp:877-892 | passing one item keeps order and distinctness |
| ContainerWalk.Skip | font/container.cpp:891-896 | the next in the queue is the next item with contents, or the walk is finished |
| ContainerWalk.WalkIsShort | font/container.cpp:877-899 | a walk never passes more items than there are |
| ContainerWalk.GetItemHoldingCount | font/container.cpp:156-165 | the number of items nested in the container |
| ContainerWalk.IsHoldingItem | font/container.cpp:167-175 | true exactly of the items nested in the container |
| ConnectionProtocol.EveryRunIsSafe | font/connection.cpp:86-403 | on every run pending counts stay in {0, 1} and count what is in flight; the socket is closed at most once, with no write in flight and no read or write started after; the release is scheduled at most once and only with nothing pending; deletion comes last |
| ConnectionProtocol.ClosingProgress | font/connection.cpp:131-175 | once closing, at most two completions remain, each brings the release nearer, and it is scheduled exactly when none remains |
| ConnectionProtocol.RequestIsCarriedOut | font/connection.cpp:86-129 | a close task is scheduled exactly while a request stands, and running it closes |
| ConnectionProtocol.StepKeeps | font/connection.cpp:86-403 | every step keeps the invariant |
| ConnectionProtocol.CompletionStep | font/connection.cpp:206-403 | while closing, a completion lowers what remains by one and nothing else changes it |
| ConnectionProtocol.PhaseMeaning | font/connection.cpp:131-195 | the order of socket, release and deletion, as a statement about all pairs of actions |
| ConnectionRuns.EveryRunIsExplained | font/connection.cpp:86-428 | on every run the connection is being closed exactly if a close was asked for, a read or write failed other than by an abort, a header announced 0 or less or 16752 or more octets, or a first packet was for no protocol; until then it awaits the next header or packet unless a read was aborted |
| ConnectionRuns.DeletedUnreferenced | font/connection.cpp:177-195 | a released connection is deleted exactly when all references are given back |
| ConnectionRuns.SendStarts | font/connection.cpp:321-354 | a write starts exactly when none is in flight, the connection is not closing and no write has failed |
| ConnectionRuns.WhatCanHappen | font/connection.cpp:86-403 | on every run, which events can come next |
| ConnectionProtocol.Connection.constructor | font/connection.h:76-90 | the initial state |
| ConnectionProtocol.Connection.CloseConnection | font/connection.cpp:86-101 | the first request schedules one task, later ones nothing; the lock is balanced |
| ConnectionProtocol.Connection.CloseConnectionTask | font/connection.cpp:103-129 | the step of the close task, with the lock given back |
| ConnectionProtocol.Connection.ClosingConnection | font/connection.cpp:131-175 | socket and release as the counts demand; the lock is given back exactly when the release is scheduled |
| ConnectionProtocol.Connection.ReleaseConnection | font/connection.cpp:177-195 | deleted when unreferenced, otherwise put off |
| ConnectionProtocol.Connection.AcceptConnection | font/connection.cpp:197-204 | the first header is asked for |
| ConnectionProtocol.Connection.ParseHeader | font/connection.cpp:206-231 | the step of a completed header, with the lock given back |
| ConnectionProtocol.Connection.ParsePacket | font/connection.cpp:233-294 | the step of a completed packet, whatever the protocol does meanwhile, with the lock given back |
| ConnectionProtocol.Connection.HandleReadError | font/connection.cpp:296-319 | an abort asks for nothing, any other failure for a close |
| ConnectionProtocol.Connection.SendMessage | font/connection.cpp:321-354 | a write starts only if none is in flight; refused exactly while closing or after a failed write |
| ConnectionProtocol.Connection.OnWriteOperation | font/connection.cpp:379-403 | the step of a completed write, with the lock given back |
| ConnectionProtocol.Connection.HandleWriteError | font/connection.cpp:405-428 | an abort asks for nothing, any other failure for a close |
| ConnectionProtocol.Connection.CountRef | font/connection.h:113-114 | references are counted |
| Md5Block.Transform | font/md5.cpp:57-137 | the 64 unrolled operations are the 64 steps of section 3.4 of RFC 1321, constants, shifts and word order included |
| Md5Block.Round1 | font/md5.cpp:61-77 | steps 1 to 16 |
| Md5Block.Round2 | font/md5.cpp:79-95 | steps 17 to 32 |
| Md5Block.Round3 | font/md5.cpp:97-113 | steps 33 to 48 |
| Md5Block.Round4 | font/md5.cpp:115-131 | steps 49 to 64 |
| Md5.Hash | font/md5.cpp:140-219 | however a message is split, its digest is that of the padded message, with seed 0 from the initial state of RFC 1321 |
| Md5.Context.Update | font/md5.cpp:151-184 | whatever the context stood for, the data is appended to it |
| Md5.Context.Count | font/md5.cpp:160-164 | two words with a carry found by wrap-around count bits modulo 2^64 |
| Md5.Context.Take | font/md5.cpp:166-183 | one octet is buffered, and a full block compressed |
| Md5.Context.Final | font/md5.cpp:186-219 | the digest of all that was held, as sections 3.1 to 3.5 define it |
| Md5.CounterAdds | font/md5.cpp:160-164 | the two words stay the length in bits modulo 2^64 |
| Md5.PositionFromCounter | font/md5.cpp:157-158 | the position in the buffer follows from the low word alone |
| Md5.PaddingFits | font/md5.cpp:199-201 | the padding added completes the message to 56 octets modulo 64 |
| Md5.BlocksNext | font/md5.cpp:171-182 | an octet completes a block exactly every 64th time |
| Md5.EncodeDecode | font/md5.cpp:174-217 | words and octets convert without loss |
| Md5.SeedMoves | font/md5.cpp:140-149 | how a seed moves the initial state |
| Md5Example.DigestOfAbc | font/md5.cpp:140-219 | the digest of "abc" is the one section A.5 of RFC 1321 gives |
| DamageList.GenerateDamageList | font/condition.cpp:1408-1428 | the list falls from start to 1, repeats a value exactly while more than half of it is missing from what is due, and adds up to the greater of the amount and 1 + ... + start |
| DamageList.MetExactly | font/condition.cpp:1408-1428 | the amount is met exactly when twice it is at least start * (start + 1) |
| DamageList.NearerMeans | font/condition.cpp:1423-1426 | comparing the two relative errors asks whether more than half of the value is missing |
| DamageList.DueIsShare | font/condition.cpp:1416-1417 | what is due is the whole part of the share |
| DamageList.StillFits | font/condition.cpp:1415-1426 | a repeated value leaves room for one of each still to come |

## Left out

- Database, XML, scripts, sockets and the file system: a file is a byte sequence, a table a sequence of rows, completions and scheduled work are steps.
- Client notifications, container spectators and magic effects: user interface only.
- The spectator cache: its freshness depends on callers outside these files.
- The table of refreshable tiles kept beside the quadtree, and deleting nodes: no other part reads them.
- The code's error numbers and console messages: a result says whether an operation succeeded.
- Walkability, tile extra cost and clear sight to the target are fixed functions of the position during one search.
- PathTo.GetPathTo: no claim of a cheapest path; a diagonal step is estimated at 25 although two straight ones cost 20.
- PathMatching.GetPathMatching: where the pool has run out, at a distance of 11 and more, answers are compared with the walks cheaper than the last node taken before; dearer ones may lead over nodes that are missing.
- PathTo.GetPathTo: with an unbounded distance, or one of 11 and more, a missing path is proved absent only for a search that ends on its own, because the pool or the limit on closed nodes may end it before.
- BlockCache.FileReader.ReadBytes: reads through the cache that pass the end of the file are excluded; the loop does not end on them.
- BlockCache.ServeRun: requests stay inside the file, because the two ways differ beyond it.
- NodeParser.WriteAndLoad: type bytes that need an escape are excluded, because the parser does not unescape types.
- NodeParser.PropBuffer.GetProps: properties have to fit the buffer after it has grown by 1024 bytes, as the code assumes.
- NodeParser.OpenFile: a file shorter than its version number counts as unreadable; the code would compare what memory held.
- Properties set after children, and writing with no open node: the writer is used node by node, properties first.
- ItemRows.LoadForest: attributes are carried as one value; their bytes are the subject of ItemFormat and ItemBinary.
- Depots in the row model are containers kept in numbered places; their size limit is not part of this model.
- ItemBinary.LoadItem: items stationary on a tile, doors, beds, teleports and depots are not part of this model; unknown attributes of theirs are read over as the code does.
- Starting the decay of a loaded item: the decay list is not part of this model.
- ContainerForest.Item.QueryAdd: what a tile or player above the outermost container answers is not part of this model.
- ContainerForest.WeightsStayExact: weights are integers, so the drift of floating-point sums is not modelled.
- `Container::addItem` and `Container::clone` do not touch weights and are outside the weight invariant.
- ConnectionProtocol.EveryRunIsSafe: each handler is one step, as the lock makes it; closing all connections at once from the manager is not modelled.
- What the message pool does with a message that finds a write in flight: it sends again later, which is another step.
- Md5.Context.Update: a piece is shorter than 2^32 octets, the range of its length parameter.
- DamageList.GenerateDamageList: quotients are exact and products unbounded, so rounding and 32-bit overflow are not modelled.
- The four words of the MD5 state, tile floors, cached blocks and bundles of item attributes are values assigned as a whole rather than written in place.
- Random shuffles, area rotation, damage formulas and the XML loaders: no invariant beyond their branches.
