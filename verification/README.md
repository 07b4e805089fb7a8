# Verified models of a multi-user dungeon server

This project models the parts of the server whose correctness needs an argument, and proves what they are for:

- `Shared.dfy`: what several of the models need.
- `NumberTheory.dfy`, `HashMap.dfy`: the open-addressing hash table, its double hashing, its tombstones and its growth to sizes found by a randomised Fermat test. Over whole runs it answers like a plain map, and a lemma-backed counterexample shows where it does not.
- `AutoMap.dfy`: the depth-bounded flood fill that draws the map around a character, with soundness and completeness of the finished map, and where on it every room and every exit lies.
- `Text.dfy`, `Resets.dfy`: the compiler that turns a flat reset list into trees and trees into scripts, and the interpreter that runs the scripts. The composition of import, print, parse and run means what the list says, and no maximum is exceeded.
- `Ownership.dfy`: the intrusive object lists with their owner fields, every move between holders, and the recursive extraction of a container, also when containers are inside each other.
- `Affects.dfy`: stat modifiers from affects and worn objects, the wear protocol, and the tick; a ledger equates every attribute with what is in force, and every affect that is not permanent runs out at its tick.
- `Flags.dfy`, `Explored.dfy`: growable bit sets against finite sets, their comma-separated text form, and the run-length form of the explored rooms, each with the exact condition of its round trip and the tables that meet it.
- `Layout.dfy`, `Grid.dfy`: cutting and padding of text with colour codes, what of it a screen without colours prints, and tables whose rows are exactly as wide as asked for and show every entry at its place.
- `Login.dfy`: the login machine over whole connections, and over any number of connections that share the list of players, the memory of characters and the stored accounts.
- `Telnet.dfy`: the in-place stripping of telnet commands (RFC 854, "TELNET COMMAND STRUCTURE").

Code that changes state step by step is modelled by methods and classes with the same fields and branches; each is proved against a specification function, and the properties are proved about that function. Beside the large theorems stand lemmas that say in figures, bytes or characters, and without the function's own parts, what it answers. Loads from the database create fresh values, writes have no effect except on the stored accounts, and random outcomes, `crypt`, the tables of races and classes and the like are parameters.

What the proofs found, each stated by a lemma or a contract:

- Inserting a present key again while a tombstone lies before it on its probe path leaves the key in the table twice (`HashMaps.DuplicateAfterRemoval`, `HashMaps.HashMap.Insert`).
- An object comes back from the database unworn and without its affects (`Affects.SavedUnworn`).
- Dropping a worn object leaves its affects behind, and the object keeps its place: picked up again, it counts as worn although nothing is added (`Affects.Character.ObjFromChar`, `Affects.Character.ObjToChar`).
- Linking an object that is still on another list leaves memory that no assignment of objects to holders explains (`Ownership.LinkKeepsValidIff`); two containers can be put into each other, and extracting one then destroys both (`Ownership.ExtractFromCycle`).
- The players' settings are kept in the account's flags but saved with a table that names none of them, so they are lost (`Flags.SettingsAreLost`).
- The run lengths of explored rooms count positions in the room table, not room numbers (`Explored.RestoresExactly`); rooms numbered from one on survive exactly while they are fewer than the 256 buckets of the table (`Explored.RoomsRestoredExactly`).
- `update_explored` does not end if and only if there is a room numbered zero or less, because it counts rooms from number one on (`Explored.RunsOnExactly`).
- RIGHT alignment wraps around when the text is as wide as the field, INDENT overflows it by up to eight columns (`Layout.CountedWidth`); an empty value makes a table cell too narrow (`Grids.CellFillsColumns`).
- `~~` and `~!~` print a character that `strlen_color` does not count, so text with such a code is laid out too wide (`Layout.TildeIsNotCounted`, `Layout.CountedExactly`, `Layout.ExactWidth`).
- After a player has deleted a character, the account keeps its address. If the address is given to another player and the first one then hangs up, the other one is unlinked and freed (`Login.HangupUnlinksAnother`); `Login.RunsAreSafe` and `Login.HangupLeaves` say exactly when this happens.
- The window size is right only under the condition of `Telnet.NawsFollowsRfc`. A command that the input ends in right behind its verb stays in the buffer unless it is WILL or WONT (`Telnet.CutOffBehindVerb`).
- The list of an account's characters never ends when two or more are stored, because one entry is linked once for each row (`Login.LoadAccountPlayers`).
- A player who quits is not saved, while one whose connection breaks is (`Login.QuitIsNotSaved`).

## Model

| member | source | states |
|---|---|---|
| NumberTheory.EuclidsLemma | src/hashmap.c:36-49 | a prime that divides a product divides a factor; used for the coprimality of sizes and steps |
| NumberTheory.FermatsLittleTheorem | src/hashmap.c:12-34 | for a prime p and any base p does not divide, the power p - 1 is 1 modulo p: the fact the trial loop relies on |
| NumberTheory.SharedFactorFailsTest | src/hashmap.c:12-34 | a base that shares a factor with a composite number never passes the trial |
| NumberTheory.PrimesAreUnbounded | src/hashmap.c:36-49 | above every number there is a prime, so the search for one can end |
| NumberTheory.HasPrimeFactor | src/hashmap.c:36-49 | every number from 2 on has a prime factor |
| NumberTheory.ProbesDiffer | src/hashmap.c:133-152 | with a prime size and a step in 1..size-2 two different probes among the first size ones meet different slots |
| NumberTheory.ProbesCoverTable | src/hashmap.c:133-152 | every slot is met by one of the first size probes |
| HashMaps.Random.Draw | src/hashmap.c:16-17 | nine bases in range; a draw that deceives the test uses up one of the budget |
| HashMaps.FermatTrial | src/hashmap.c:17-27 | square-and-multiply computes base^(val-1) modulo val |
| HashMaps.IsPrimeTest | src/hashmap.c:12-34 | accepts exactly the numbers that pass all trials, hence every prime |
| HashMaps.PrimePasses | src/hashmap.c:12-34 | a prime passes for every choice of bases |
| HashMaps.FindPrimeGreaterThan | src/hashmap.c:36-49 | ends, returns an odd number above the argument and has stepped past no odd prime |
| HashMaps.StartsizeIsPrime | src/hashmap.c:8 | the default table size 1021 is prime |
| HashMaps.SlotIs | src/hashmap.c:126-152 | the probe path in figures: it starts at the key modulo the size and goes on in steps of the key modulo size - 2, plus one |
| HashMaps.HashMap.constructor | src/hashmap.c:79-93 | an empty table without tombstones; the default size is prime, another size is the next number the search finds |
| HashMaps.HashMap.Count | src/hashmap.c:223 | the number of bindings of the map the table stands for |
| HashMaps.HashMap.Get | src/hashmap.c:200-221 | the value the map binds to the key, or nothing |
| HashMaps.HashMap.Remove | src/hashmap.c:167-196 | returns the bound value and removes exactly that binding, leaving a tombstone |
| HashMaps.HashMap.InsertPass | src/hashmap.c:133-153 | one pass over the probe path: places or overwrites unless every slot is active for another key |
| HashMaps.HashMap.Overwrite | src/hashmap.c:138-142 | the key met before a tombstone gets its new value |
| HashMaps.HashMap.Fill | src/hashmap.c:145-150 | the first slot that is not active takes the key, which is then in two slots exactly when it was behind |
| HashMaps.HashMap.Insert | src/hashmap.c:126-163 | ends; keeps the table standing for the updated map exactly when the key is met before a tombstone, and otherwise leaves the key in two slots; with a prime size and a free slot the table does not grow |
| HashMaps.HashMap.MoveEntry | src/hashmap.c:58-62 | an active entry is inserted again into the new table, which does not grow for it |
| HashMaps.HashMap.Refill | src/hashmap.c:57-63 | the loop over the old table: exactly the active bindings come over |
| HashMaps.HashMap.Rehash | src/hashmap.c:51-64 | same map, no tombstones, a bigger table |
| HashMaps.FullPathMeansFullTable | src/hashmap.c:133-153 | when every slot on a prime-sized probe path is used, the whole table is active |
| HashMaps.BindingsFitTable | src/hashmap.c:129-131 | a table stands for at most as many bindings as it has slots |
| HashMaps.NoFreeSlot | src/hashmap.c:154-159 | the first pass fails only in a table that is full or whose size is no prime |
| HashMaps.FillKeeps | src/hashmap.c:145-150 | filling the first slot that is not active keeps every binding findable and adds the new one |
| HashMaps.OverwriteKeeps | src/hashmap.c:138-142 | overwriting the active slot of a key updates exactly that binding |
| HashMaps.RemoveKeeps | src/hashmap.c:175-178 | clearing the active flag removes exactly that binding; probe paths stay passable |
| HashMaps.DuplicatedStandsForNoMap | src/hashmap.c:145-150 | a table with a key active in two slots stands for no map |
| HashMaps.Perform | src/hashmap.c:126-221 | one operation answers and changes the map as a plain map would |
| HashMaps.Reaches | src/hashmap.c:133-151 | decides whether an insertion of the key would meet the key before a tombstone |
| HashMaps.Run | src/hashmap.c:126-223 | over every disciplined run all answers are a plain map's, and the count is its size |
| HashMaps.RunUntil | src/hashmap.c:126-221 | over every run the answers and the contents are a plain map's up to the first insertion that meets a tombstone before its key |
| HashMaps.DuplicateAfterRemoval | src/hashmap.c:145-150 | a concrete run of four operations after which key 0 is active twice |
| AutoMap.BoundaryRejectsVertical | src/map.c:134-139 | a room drawn at its depth lies within Manhattan distance of twice the depth, so the boundary test rejects exactly the exits up and down |
| AutoMap.RoomDrawn | src/map.c:114-116 | drawing a room at the end of a walk keeps every cell of the map sound |
| AutoMap.ExitDrawn | src/map.c:144-153 | drawing an exit between room cells keeps every cell sound |
| AutoMap.Map.Clear | src/map.c:99-103 | the loops of draw_map leave every cell blank |
| AutoMap.Map.MapExits | src/map.c:105-164 | writes only inside the array, keeps the map sound, never changes a room cell once assigned, and finishes the room it draws |
| AutoMap.Map.MapDoor | src/map.c:122-163 | one door: its exit and the room behind it are done, whatever branch is taken |
| AutoMap.Map.FollowExit | src/map.c:144-163 | draws an exit that stays on the map and recurses into the room behind it |
| AutoMap.Map.DrawExit | src/map.c:144-153 | the exit cell shows the door's symbol, open or closed |
| AutoMap.AgreedIsVisited | src/map.c:105-164 | where the map agrees with a walk, the walk's last room was drawn at its depth |
| AutoMap.AllFinishedIsComplete | src/map.c:105-164 | if every drawing is finished the map is complete: depth left and an agreeing cell mean every visible compass exit is shown and its room cell is taken |
| AutoMap.MarkedStaysGood | src/map.c:479-483 | the X on the viewer's cell leaves the map sound |
| AutoMap.DrawMap | src/map.c:459-485 | the drawn map is sound and complete; the viewer's room is at the centre, and each of its visible compass exits is drawn on its side: the north one above, the east one on the right, the south one below, the west one on the left; every room lies where its walk adds up to, every exit cell shows the exit of a neighbouring room with its symbol, and every other room its sector's symbol |
| AutoMap.WalkEndsAt | src/map.c:74-97 | a walk ends two columns to the right for each step east less one west, and two rows down for each step south less one north |
| AutoMap.SoundRooms | src/map.c:132-133 | on a sound map every room cell shows a room that a walk of so many steps to each side leads to |
| AutoMap.SoundExits | src/map.c:144-153 | on a sound map every exit cell shows the exit of the room below, on the left, above or on the right of it, with the symbol of an open or of a closed exit in that direction |
| AutoMap.CompleteNeighbours | src/map.c:122-163 | on a complete map what the viewer's room opens to is drawn at the four cells around the centre, and the cells behind them are taken |
| AutoMap.SymbolsOfRooms | src/map.c:50-71 | each sector's symbol, by the sector's number |
| Text.AtoiOfDigits | src/explored.c:131-160 | reading a printed number gives the number |
| Text.AtoiOfSigned | src/explored.c:131-160 | a minus sign makes the number negative; white space in front and a plus sign change nothing |
| Text.DigitsOfMore | src/explored.c:106-129 | a number is printed in base ten |
| Text.FirstToken | src/flag.c:213-223 | strtok's first token ends where a delimiter or the end follows it |
| Text.GetLine | src/str.c:528-547 | the line and what follows its newline and carriage return |
| Text.LineOfText | src/str.c:528-547 | a line written with a newline is read back, with nothing else taken |
| Text.LineEnds | src/str.c:528-547 | a newline with a carriage return behind it ends a line, and so does the end of the text |
| Text.Trim | src/str.c:53-71 | the text without white space at its ends |
| Text.TrimsBlanks | src/str.c:53-71 | what is cut off is white space, and none is left at either end |
| Text.StrCmp | src/str.c:78-93 | true exactly when the strings differ apart from case |
| Text.StrPrefix | src/str.c:100-115 | true exactly when the first string is empty or no prefix of the second apart from case |
| Text.CaseIsIgnored | src/macro.h:27-28 | two characters count as the same exactly when they are equal or one letter in two cases |
| Text.IsNumber | src/str.c:504-526 | tells a sign followed by digits and points from anything else, and whether there is a point |
| Text.NumericIs | src/str.c:504-526 | a number is a text of digits and points, whose first character may be a sign |
| Resets.Importer.ImportLine | src/server/importer.c:1449-1612 | links the line's reset exactly when it is accepted, as a root or under the last root, and keeps every tree well formed |
| Resets.Importer.ImportResets | src/server/importer.c:1425-1615 | the trees hold exactly the accepted lines, in file order; gives and equips hang under npcs, puts under objects |
| Resets.RootLineBecomes | src/server/importer.c:1463-1467 | the first number of an M, O or D line is the npc, the object or the room, the third the room, and the fourth of an M line the maximum that the script gets; with an unknown number or letter the line becomes nothing |
| Resets.MobLineBecomes | src/server/importer.c:1529-1575 | a G or E line belongs to the last root if that is an M line, and its first number is the object that is given or equipped |
| Resets.ObjLineBecomes | src/server/importer.c:1511-1528 | a P line belongs to the last root if that is an O line, and its first number is the object that is put |
| Resets.WriteReset | src/server/importer.c:215-285 | one line of script text |
| Resets.FinalizeReset | src/server/importer.c:207-290 | the script text of a reset and its subresets, indented |
| Resets.ParseOfReset | src/server/importer.c:215-285 | a printed reset is parsed as its command, with its id and its maximum or 1 |
| Resets.ParseOfTree | src/server/importer.c:207-290 | parsing a printed tree gives the tree's commands in preorder |
| Resets.ScriptLine | src/server/update.c:64-185 | each of the five commands as it is written in a script, with its id and its maximum or one |
| Resets.SlotLine | src/server/update.c:155-159 | an equip command that names its slot |
| Resets.Room.CountPeople | src/server/update.c:74-80 | how many people with that id are in the room |
| Resets.Room.CountObjects | src/server/update.c:131-135 | how many objects with that id are on the list |
| Resets.Room.Execute | src/server/update.c:64-185 | one command's effect on the room, the last npc, the last object and the error count; an npc comes into the room, at the front, exactly if fewer than its maximum are there, and an object onto the floor likewise |
| Resets.NpcsCounted | src/server/update.c:74-80 | the count is the number of places of the room's list that hold the id |
| Resets.ItemsCounted | src/server/update.c:131-135 | the same for a list of objects |
| Resets.PeopleCount | src/server/update.c:64-88 | a command adds one to the people with an id exactly when it loads an npc with that id and fewer than its maximum are in the room |
| Resets.ThingsCount | src/server/update.c:90-112 | the same for objects on the floor |
| Resets.CarriedCount | src/server/update.c:114-166 | give adds one to what the last npc carries exactly when it carries fewer than the maximum, and equip always |
| Resets.ScriptLimits | src/server/update.c:42-187 | whatever the script, no more people or things with an id than before or than its largest maximum |
| Resets.ScriptLimitsCarried | src/server/update.c:114-142 | the same for what an npc carries, of objects that are not equipped |
| Resets.FullRoomStays | src/server/update.c:82-84 | where every maximum is reached nobody comes into the room |
| Resets.CommandOutcome | src/server/update.c:64-185 | what cannot be done is logged and changes no list; which npc and which object are the last ones then |
| Resets.EquipDresses | src/server/update.c:144-166 | what is equipped is carried and worn by the last npc, in the named slot, and nobody else changes |
| Resets.PutFills | src/server/update.c:168-185 | what is put is in the last object, and no other changes |
| Resets.Room.Recognise | src/server/update.c:59-72 | which command a line is, by its first token without regard to case |
| Resets.Room.ResetRoom | src/server/update.c:42-187 | runs the parsed script command by command; no id is then more often in the room or on the floor than before or than its largest maximum in the script |
| Resets.RunOfSubs | src/server/update.c:114-166 | running the gives and equips of a tree hands them to the tree's npc and reports no error |
| Resets.RunOfPuts | src/server/update.c:168-185 | running the puts of a tree places them in the tree's object and reports no error |
| Resets.ScriptMeansTree | src/server/importer.c:207-290 | running the parsed text of a tree has the tree's meaning; the branches for a missing last npc or object are never reached |
| Resets.MobTreeBrings | src/server/update.c:64-166 | an M tree loads one npc, which comes into the room if fewer than its maximum are there and which carries each given and equipped object of the tree, each one that is only given once, and wears each equipped one |
| Resets.ObjTreeBrings | src/server/update.c:90-185 | an O tree loads one object, which is left on the floor if none is there and which contains one object for each put, the last one in front |
| Resets.SecondResetBringsNobody | src/server/update.c:82-84 | a second reset with an M tree whose maximum is reached brings nobody |
| Resets.PrintAndReset | src/server/update.c:42-187 | printing a tree and resetting the room has the tree's meaning without errors; a room that holds the tree's maximum stays as it is |
| Resets.ResetAll | src/server/update.c:42-187 | the same for every tree in turn |
| Resets.LastTree | src/server/update.c:42-187 | the trees are reset in list order |
| Resets.ImportAndReset | src/server/importer.c:1425-1615 | from the reset list to the room: the accepted lines, their trees, their text and the effect of running it agree, with no error |
| Ownership.UnlinkMacro | src/macro.h:42-55 | the pointer loop unlinks exactly the given element and keeps the order of the rest |
| Ownership.LinkKeepsValidIff | src/util.c:163-194 | linking an object keeps lists and owner fields in agreement exactly when the object was nowhere; otherwise no assignment of objects to holders agrees with the memory |
| Ownership.UnlinkKeepsValid | src/util.c:177-236 | unlinking an object from its holder keeps them in agreement |
| Ownership.World.constructor | src/object.c:36 | rooms and characters with empty lists, no objects |
| Ownership.World.LoadObject | src/object.c:271-277 | a new detached object at the front of first_object |
| Ownership.World.ObjToRoom | src/util.c:163-168 | a detached object is at the front of the room's list and names the room; one that is still on a list leaves memory that no assignment of holders agrees with |
| Ownership.World.ObjToChar | src/util.c:189-194 | the same for a character |
| Ownership.World.ObjToObj | src/util.c:170-175 | the same for a container |
| Ownership.World.ObjFromRoom | src/util.c:177-187 | unlinks from the room; nothing happens without one |
| Ownership.World.ObjFromChar | src/util.c:199-217 | unlinks from the carrier; nothing happens without one |
| Ownership.World.ObjFromObj | src/util.c:219-236 | unlinks from the container; nothing happens without one |
| Ownership.OneHolder | src/util.c:163-236 | an object is on a holder's list, once, exactly when its field names that holder, and at most one of the three fields is set |
| Ownership.LinksInFull | src/util.c:163-236 | a linked object is at the front of its new holder's list, an unlinked one on none, and no other object or list changes |
| Ownership.RunMoves | src/util.c:163-236 | over every run of loads and moves of detached objects the agreement holds throughout |
| Ownership.ExtractObj | src/object.c:354-373 | ends on every containment, with cycles or without, and destroys exactly the object and what is inside it, keeping everything in agreement |
| Ownership.ExtractContents | src/object.c:366-370 | the loop over a list that shrinks under it reaches every content once |
| Ownership.ExtractNext | src/object.c:366-369 | the saved next pointer is the next content of the shrunken list |
| Ownership.ExtractionIsExact | src/object.c:354-373 | what extract_obj leaves on every containment, with cycles or without: exactly the object and what is transitively inside it go, others keep their holders, the holder's list loses just that object, every other surviving list is as it was |
| Ownership.MakeCycle | src/util.c:170-175 | two containers are put into each other by moves of detached objects |
| Ownership.ExtractFromCycle | src/object.c:354-373 | extracting one of two containers that are inside each other ends and destroys both |
| Affects.Character.constructor | src/character.c:117-145 | a new character's attributes with no affect in force |
| Affects.Character.AffectModify | src/affect.c:58-130 | moves every attribute by the affect's shift, up or down, and nothing else |
| Affects.Character.LedgerInFull | src/affect.c:68-130 | each attribute is its base plus the modifiers of exactly those affects, on the character and on what it wears, whose callback is the attribute's own; of the resistances only the first three |
| Affects.Character.ModifyAll | src/util.c:270-272 | moves every attribute by the total of a list of affects |
| Affects.Character.AffectToChar | src/affect.c:207-211 | links the affect and keeps the ledger |
| Affects.Character.AffectRemove | src/affect.c:168-175 | unlinks the affect and keeps the ledger; nothing happens without affects |
| Affects.Character.AffectToObj | src/affect.c:213-219 | an affect on a worn object takes hold at once |
| Affects.Character.GetEqChar | src/util.c:238-249 | an object worn at the place, if there is one |
| Affects.Character.EquipChar | src/util.c:251-279 | no effect at a taken place; otherwise the ledger stays right exactly when the object's affects were not yet in force |
| Affects.Character.UnequipChar | src/util.c:281-292 | takes the object's affects back |
| Affects.Character.ObjToChar | src/util.c:189-194 | adds nothing, so the ledger stays right exactly when the object's worn affects cancel out; two objects get one place exactly when the object still has a place that is taken |
| Affects.Character.ObjFromChar | src/util.c:199-217 | the ledger stays right exactly when the object's worn affects cancel out |
| Affects.Character.LoadObject | src/character.c:199-213 | a loaded object joins the carried ones unworn and without affects, and the ledger stays right |
| Affects.LoadColumns | src/object.c:186-259 | what the columns restore, matched by name |
| Affects.NothingRestored | src/object.c:186-259 | whatever the columns are, neither a place nor an affect comes back |
| Affects.SavedUnworn | src/object.c:311-324 | saving and loading keeps an object exactly when it was not worn and had no affects |
| Affects.LoadedByName | src/object.c:186-259 | the level and the wear flags are each restored from the column of their name |
| Affects.Character.TickAffect | src/server/update.c:546-561 | one affect has one tick less to go, or stays because it is permanent, or is taken back because it has none |
| Affects.Character.Tick | src/server/update.c:543-562 | of the whole list exactly those affects are left, in order, that are permanent or had a tick to go, and the others are taken back, although the loop unlinks from the list it walks |
| Affects.TicksLeave | src/server/update.c:543-562 | after n ticks exactly the affects are left that are permanent or had n ticks to go, in order: each has n ticks less to go, the same modifier and callback, and a level that fell by at most n and not below zero |
| Affects.TicksEndAll | src/server/update.c:543-562 | more ticks than every affect has to go leave none |
| Affects.Character.WaitOut | src/server/update.c:543-562 | after those ticks every attribute is its base plus what is worn |
| Affects.Character.RemoveObj | src/server/command.c:368-382 | makes the place free if it may, and says whether it is |
| Affects.Character.WearObj | src/server/command.c:384-610 | the object goes where the specification of wearing says exactly if its level is not above the character's and the class may use it; otherwise it stays off |
| Affects.WornWhere | src/server/command.c:403-609 | for every wear flag the place the object is worn at: the first wrist or finger if it is free, else the second one, else the first one cleared; every other place but the held one is its own |
| Affects.Character.WearAt | src/server/command.c:405-597 | the cases with one place |
| Affects.Character.WearAtEither | src/server/command.c:470-511 | the cases with two places: the first free one, or the first one cleared |
| Affects.Character.WearAll | src/server/command.c:623-632 | the carried objects end as the abstract rule of wear all says, each tried at the level it finds; only objects that were not worn change, each to a place of its own kind |
| Affects.WornInTheEnd | src/server/command.c:623-632 | wear all leaves an object off exactly when it cannot be seen, cannot be used at the level of its turn, or has no free place then; and such a place is taken at the end |
| Affects.WornStays | src/server/command.c:623-632 | what has been tried stays as it is, and a place that was taken stays taken |
| Affects.WearIsModest | src/server/command.c:384-610 | wearing leaves two objects at no place, succeeds exactly when usable with a free or clearable place, and takes off at most one object, only when no place was free |
| Affects.Character.UndoAll | src/affect.c:168-175 | taking everything off and removing every affect returns each attribute to its base |
| Affects.Character.Perform | src/affect.c:168-219 | one operation of a run does what its specification says and keeps the ledger |
| Affects.Character.Run | src/affect.c:168-219 | over whole runs every attribute equals its base plus the affects on the character and on its worn objects |
| Flags.WordOps | src/flag.c:80-140 | what or, and-not and exclusive-or with a shifted one or another word do to each place of a word |
| Flags.Flag.constructor | src/flag.c:29-38 | the empty set |
| Flags.Flag.ResizeBits | src/flag.c:47-61 | more words, the same set |
| Flags.Flag.SetBit | src/flag.c:80-88 | adds the bit to the set, whatever its size was |
| Flags.Flag.RemoveBit | src/flag.c:101-109 | removes the bit |
| Flags.Flag.ToggleBit | src/flag.c:121-129 | the symmetric difference with the bit |
| Flags.Flag.SetFlags | src/flag.c:90-99 | the union, also with itself |
| Flags.Flag.ToggleFlags | src/flag.c:131-140 | the symmetric difference, also with itself |
| Flags.Flag.IsSet | src/flag.c:149-156 | membership |
| Flags.ValueLookup | src/lookup.c:75-86 | the value of the first entry that the text abbreviates |
| Flags.ParseFlags | src/flag.c:205-225 | adds the values that the names stand for and returns how many of the names stand for one |
| Flags.FoundCounted | src/flag.c:206-225 | the result counts the names that stand for a value, one by one |
| Flags.FormatFlags | src/flag.c:227-250 | the names of the set entries with commas between them, or None |
| Flags.LastName | src/flag.c:234-240 | the names of the set entries are in table order |
| Flags.PrintedSet | src/flag.c:227-250 | how a set of two entries is printed: both names with a comma between them, one name, or None |
| Flags.NamesOfList | src/flag.c:227-250 | cutting a printed list at its commas gives the names again |
| Flags.TextRoundTrip | src/flag.c:205-250 | for tables told apart by first match, parsing the printed set gives the table's members of the set |
| Flags.RoundTripsExactly | src/flag.c:205-250 | every set survives the text form if and only if each name finds its own value and no name is what None abbreviates |
| Flags.BreaksFor | src/lookup.c:80-84 | a name that finds another value breaks the round trip of its own value |
| Flags.PrefixFreeIsUnambiguous | src/lookup.c:80-84 | no name a prefix of an earlier one is enough for each name to find its own value |
| Flags.CopyThroughText | src/flag.c:205-250 | printing a flag and parsing into a fresh one copies the table's members |
| Flags.ToldApartSaves | src/lookup.c:80-84 | names that differ early, and from None, survive being saved |
| Flags.AffectFlagsSave | src/affect.c:28-57 | the 28 names of the affects' flags: no name abbreviates another, None abbreviates none, so they survive being saved |
| Flags.PlrFlagsSave | src/player.c:44-46 | the same for the flags of players |
| Flags.NpcFlagsSave | src/nonplayer.c:35-38 | the same for the flags of npcs |
| Flags.RoomFlagsSave | src/room.c:59 | the same for the flags of rooms |
| Flags.AreaFlagsSave | src/area.c:39 | the same for the flags of areas |
| Flags.ExitFlagsSave | src/exit.c:39 | the same for the flags of exits |
| Flags.AccountFlagsSave | src/account.c:31 | the same for the flags of accounts |
| Flags.ChannelFlagsSave | src/channel.c:41 | the same for the flags of channels |
| Flags.RaceFlagsSave | src/race.c:33 | the same for the flags of races |
| Flags.SettingsAreLost | src/account.c:212-220 | saving and loading an account's flags keeps its colour setting and loses every setting of its players |
| Explored.GetExploredRle | src/explored.c:106-129 | the run lengths of the rooms in table order, starting with one position before the first |
| Explored.PrintedRuns | src/explored.c:106-129 | the text itself: a zero, one more than the rooms before the first explored one, the lengths of the runs in turn, and minus one |
| Explored.ConvertExploredRle | src/explored.c:131-172 | adds the positions of the runs whose bit is one; stops at a negative count or anything that is no number |
| Explored.DecodeRun | src/explored.c:161-167 | one run sets exactly its interval |
| Explored.NoRunDecoded | src/explored.c:139-170 | a run of no rooms is passed over, and anything that is no number ends the decoding |
| Explored.RunsDecoded | src/explored.c:106-172 | decoding printed runs sets the pending run and the rooms to come |
| Explored.RleRoundTrip | src/explored.c:106-172 | position k is set exactly when the k-th room of the table was explored |
| Explored.RestoresExactly | src/explored.c:106-172 | every set of explored rooms survives if and only if the table lists the rooms by number from one on |
| Explored.FewRoomsRestored | src/explored.c:112-127 | fewer rooms than hash buckets, numbered from one on, always survive |
| Explored.RoomsRestoredExactly | src/explored.c:112-127 | rooms numbered from one on survive, whatever was explored, if and only if they are fewer than the hash buckets |
| Explored.BitCount | src/explored.c:33-42 | how many of the word's 32 places are set |
| Explored.BitsCounted | src/explored.c:33-42 | the count is the number of places that are set |
| Explored.RoomCount | src/explored.c:48-55 | the size of the set |
| Explored.SaveAndLoad | src/explored.c:48-55 | in any table order as many positions are set after loading as existing rooms were explored |
| Explored.UpdateExplored | src/explored.c:57-74 | watched for any number of turns: ends behind the last room when all rooms are numbered from one on, never ends with a room below one, and forgets exactly the bits it has passed that are no explorable room |
| Explored.RunsOnExactly | src/explored.c:57-74 | the loop runs on for ever if and only if there is a room numbered zero or less |
| Explored.NotAllMatched | src/explored.c:62-66 | rooms are left to meet exactly while one has this number or a later one, or one below one |
| Layout.StripColor | src/str.c:614-645 | the characters that occupy columns, also for text that ends in half a code |
| Layout.StrlenColor | src/str.c:647-678 | how many they are |
| Layout.WhatIsShown | src/color.c:97-111 | character by character: what occupies a column and what a screen without colours prints |
| Layout.ParseColorCodes | src/server/client.c:526-606 | what is sent to a screen without colours: the text without its codes, and one ~ for each code that ends in ~ |
| Layout.PrintedLength | src/color.c:97-111 | the printed text has the characters that strlen_color counts and one for each code that ends in ~ |
| Layout.CountedExactly | src/server/client.c:556-561 | a text is printed as strlen_color counts it if and only if none of its codes ends in ~ |
| Layout.TildeIsNotCounted | src/color.c:97-111 | ~~ and ~!~ each print a character and count as none |
| Layout.Strpos | src/str.c:789-805 | the index right behind the character that fills the width |
| Layout.CutKeeps | src/str.c:789-805 | cutting there keeps as many visible characters as fit and no half code |
| Layout.CutIsBehind | src/str.c:789-805 | the cut is right behind the character that fills the width, and a text that does not fill it is kept whole |
| Layout.FillStrLen | src/str.c:680-723 | whole copies of the fill and the part that is missing |
| Layout.FillRest | src/str.c:712-720 | the part of the fill that still fits |
| Layout.FilledVisible | src/str.c:680-723 | the fill occupies exactly the columns asked for and repeats its visible pattern |
| Layout.AlignString | src/str.c:725-780 | colour, left fill, cut text, right fill, colour reset; the next five rows say what of each is seen |
| Layout.LeftAligned | src/str.c:767-774 | LEFT shows the start of the text and then the fill |
| Layout.CenterAligned | src/str.c:757-761 | CENTER shows the text with half of the fill on its left, and the odd column on its right |
| Layout.RightAligned | src/str.c:753-756 | RIGHT shows a shorter text one column before the edge |
| Layout.RightWrapsAround | src/str.c:753-756 | RIGHT puts 2^64 - 1 columns of fill before a text that is as wide as the field |
| Layout.IndentAligned | src/str.c:762-766 | INDENT shows the text behind eight columns of fill |
| Layout.AlignedEnds | src/str.c:725-780 | the colour comes first and the code that resets it last; an empty text gives an empty one |
| Layout.AlignedVisible | src/str.c:725-780 | what is seen: fill, the first characters of the text, fill; and whose codes that end in ~ it has |
| Layout.CountedWidth | src/str.c:725-780 | as strlen_color counts, at least as wide as asked for, and exactly as wide if and only if the width is not zero, RIGHT has a shorter text, and INDENT has room for eight more columns |
| Layout.TildesOfFill | src/str.c:680-723 | a fill without codes that end in ~ makes columns without them |
| Layout.ExactWidth | src/str.c:725-780 | on the screen the aligned text is exactly as wide as asked for if and only if it fits its alignment and no code that ends in ~ is in what is kept of it or in the fill |
| Grids.Grid.constructor | src/grid.c:47-59 | one empty row |
| Grids.Grid.NextRow | src/grid.c:69-81 | a new empty row |
| Grids.Grid.GridSet | src/grid.c:126-140 | refuses a place outside the grid and changes nothing then; otherwise sets the cell's layout and nothing else |
| Grids.Grid.GridAdd | src/grid.c:111-124 | fills the next cell, in a new row when the last one is full |
| Grids.EntryIsAdded | src/grid.c:111-140 | the entry is in the next cell with all it says, in a new row of plain cells when the last one is full, and no other cell changes |
| Grids.Grid.AddRow | src/grid.c:111-124 | entries whose spans add up to the columns make a row that is tiled by fitting cells, each entry in the cell where it starts |
| Grids.TileExtends | src/grid.c:111-124 | a cell set behind the tiled part extends it |
| Grids.Grid.PrintCell | src/grid.c:173-206 | border, margin, aligned value, margin, border |
| Grids.CellShows | src/grid.c:173-206 | what a cell shows in its columns: left border, left margin, the value aligned at the width that is left, right margin, right border |
| Grids.BorderEnds | src/grid.c:178-181 | a border has its colour in front and the code that resets it behind |
| Grids.Grid.PrintRow | src/grid.c:173-207 | the printed cells of a row, following the spans |
| Grids.Grid.GridPrint | src/grid.c:170-213 | each tiled row is printed exactly as wide as the grid, on the screen |
| Grids.CellFillsColumns | src/grid.c:186-200 | on the screen a cell fills its columns if and only if its value is not empty, fits its alignment, and keeps no code that ends in ~ |
| Grids.RestOfRow | src/grid.c:186-196 | from any column on the rest of the row occupies the rest of the width, with what the division leaves over in the last cell |
| Grids.RowFillsWidth | src/grid.c:170-210 | a row whose spans add up to its columns is exactly as wide as the grid |
| Grids.PrintTable | src/grid.c:170-213 | a whole table built row by row prints lines that all have the same width, and each line shows every entry of its row in the entry's own columns |
| Login.Client.constructor | src/server/client.c:187-212 | a new connection waits for an account name |
| Login.Client.SetPlaying | src/server/client.c:793-801 | the character is put on the list of players and the connection plays |
| Login.Client.LoadPlayer | src/player.c:223-246 | a fresh character at an address that was free, or none |
| Login.LoadAccountPlayers | src/account.c:240-290 | the entry of an account's characters shows the last stored one, and the list ends if and only if fewer than two are stored |
| Login.Client.SavePlayer | src/player.c:91-103 | the account is stored with its password and the character with its row, if the write takes effect |
| Login.Client.HandleAccountName | src/server/client.c:1164-1181 | a stored account asks for its password, an unknown name for the creation of an account |
| Login.NameLoadsAccount | src/server/client.c:1164-1181 | a stored name loads the account as it is stored, any other name is an account without a password and characters |
| Login.Client.HandleAccountPassword | src/server/client.c:1124-1162 | a wrong password counts and the third ends the connection; the right one leads to the menu or to play |
| Login.PasswordLeads | src/server/client.c:1124-1162 | where the right password leads, with and without a character that logs in by itself, and where the wrong one does |
| Login.Client.HandleCreateAccount | src/server/client.c:1107-1122 | yes leads to a password, no back to the name |
| Login.Client.HandleCreatePassword | src/server/client.c:1097-1105 | six characters at least, then the confirmation |
| Login.Client.HandleConfirmPassword | src/server/client.c:1084-1095 | goes on only when the password is repeated |
| Login.Client.HandleEmail | src/server/client.c:1072-1080 | goes on with a valid address |
| Login.Client.HandleTimezone | src/server/client.c:1059-1070 | goes on to the menu with a known zone |
| Login.AccountLeads | src/server/client.c:1059-1181 | to which handler each line of a new account leads |
| Login.Client.HandleAccountMenu | src/server/client.c:993-1039 | a number plays a character, letters create, delete or leave |
| Login.MenuLeads | src/server/client.c:993-1039 | number k plays the k-th of the account's characters; c creates, d deletes, e leaves, in either case; nothing else leads anywhere |
| Login.Client.HandleCreateChar | src/server/client.c:959-977 | a new character with a name of three to twelve letters |
| Login.NameIsCapitalized | src/str.c:359-376 | a new character has the name that was typed, with one capital letter at its front |
| Login.Client.HandleSex | src/server/client.c:919-952 | a sex chosen by number or name |
| Login.SexByNumber | src/server/client.c:925-940 | 1 is neutral, 2 male, 3 female, 4 hermaphrodite |
| Login.SexByName | src/server/client.c:941-949 | a sex is chosen by its name or an abbreviation of it, in any case |
| Login.Client.HandleRace | src/server/client.c:902-917 | a known race |
| Login.Client.HandleClass | src/server/client.c:865-888 | a known class, and then play |
| Login.ChoicesAreRecorded | src/server/client.c:865-952 | the new character has the sex, the race and the class of its lines, and enters play with the class |
| Login.Client.HandleConfirmDeleteChar | src/server/client.c:828-844 | returns to play unless the account's password is given; with it the character is no longer stored and is freed, and the account keeps its address |
| Login.DeletesThatCharacter | src/player.c:71-84 | with the password and the write a character is stored for the account afterwards exactly if it was stored before and does not have the played one's id; the order and everything else that is stored stay |
| Login.DeletionNeedsPassword | src/server/client.c:828-844 | without the password or the write nothing that is stored changes; who is unlinked and freed |
| Login.Client.HandleConfirmAccountDelete | src/server/client.c:979-991 | ends the connection only with the account's password; the account is no longer stored, and whatever character has the kept address is unlinked and freed |
| Login.DeletesThatAccount | src/account.c:238 | with the password and the write exactly the account is no longer stored |
| Login.Client.HandleCommand | src/server/command.c:198-234 | logout and delete unlink the character, quit only ends the connection, save stores the account and the character |
| Login.CommandLeads | src/server/command.c:198-234 | to which handler each command leads and whom it takes off the list of players |
| Login.SavesThatCharacter | src/player.c:91-103 | saving stores the account's own password and adds its character behind the stored ones unless its id is there |
| Login.Client.Handle | src/server/client.c:757-767 | the handler of the state takes the line |
| Login.Client.Receive | src/server/client.c:664-670 | one event of a connection: a line, the saving of a player, or its end, which saves a player and frees whatever has the kept address |
| Login.LinksOnce | src/server/client.c:793-801 | entering play links a character that was not linked exactly once |
| Login.StepIsSafe | src/server/client.c:757-1181 | one step of one connection keeps all connections safe if and only if it does not free a character that is another one's |
| Login.RunIsSafe | src/server/client.c:793-1181 | one connection is safe in every run in which the others leave its character alone |
| Login.QuitIsNotSaved | src/server/server.c:225-238 | quitting leaves the stored accounts as they are; a connection that breaks while it plays stores its own |
| Login.RunsAreSafe | src/server/client.c:793-1181 | with any number of connections and any run: in every state each playing character is on the list of players exactly once, no other character of a connection is, no two connections have one character, and a new character plays only with sex, race and class, if and only if no connection ever frees a kept address that belongs to another one |
| Login.SafeWithoutDangling | src/server/client.c:828-844 | all connections stay safe when none ends or deletes its account between the deletion of its character and its next character |
| Login.DanglesExactly | src/server/client.c:828-844 | a connection keeps the address of a freed character exactly from the deletion to the next character it loads or creates |
| Login.HangupUnlinksAnother | src/account.c:66-68 | a run of seven events, safe up to the last, in which a hang-up after a deletion takes another player off the list who is still playing |
| Login.HangupLeaves | src/account.c:49-70 | the end of a connection takes its character off the list and nobody else, whatever the others do before, if and only if its character was not destroyed since it was loaded or created |
| Login.NoEntryWithoutPassword | src/server/client.c:993-1181 | every run that is behind the login of an account gave the password that was stored when it named the account, or chose a password of six characters for an account that was not stored then and repeated it on the next line; and the account keeps just that password |
| Login.StoredNeedsItsPassword | src/server/client.c:1124-1162 | an account that is stored when it is named is entered only with the password that is stored then |
| Login.NobodyEntersWithoutPassword | src/server/client.c:993-1181 | with any number of connections that create, save and delete accounts: the same for each of them, and the password was stored from the start or some connection chose and repeated it when the account was not stored |
| Login.AccountsSourced | src/player.c:91-103 | every stored password was stored from the start or was chosen and repeated by some connection when the account was not stored |
| Login.StoresOwn | src/account.c:229-236 | a step changes stored passwords only by a player who saves the account it plays |
| Login.EntitledIsSourced | src/account.c:118-184 | whoever is entitled to an account has a password that comes from there |
| Login.LocalRun | src/server/client.c:664-670 | what a connection sees of a run of the server is a run of its own |
| Login.ThirdWrongEnds | src/server/client.c:1124-1135 | no run has more than three wrong passwords, and after the third the connection is closed for good |
| Login.Serve | src/server/client.c:187-212 | a whole connection: entitled and counted at its end, and safe when the others leave its character alone |
| Telnet.Client.SendTelopt | src/server/telnet.c:26-32 | three bytes, none to a websocket |
| Telnet.Client.SendTeloptSb | src/server/telnet.c:36-42 | six bytes, none to a websocket |
| Telnet.Client.AdvertiseTelopts | src/server/telnet.c:44-47 | asks for the window size and the terminal type |
| Telnet.Client.OptionCommand | src/server/telnet.c:77-132 | DO, DONT, WILL and WONT: the answer and how far it goes on |
| Telnet.OptionIsAnswered | src/server/telnet.c:77-132 | the bytes that are sent for each option command in front of a text, and none to a websocket |
| Telnet.Client.Scan | src/server/telnet.c:148-154 | ends at SE or two NULs, with control characters of a terminal type replaced |
| Telnet.Client.NameTerminal | src/server/telnet.c:197-219 | stores the terminal type with other characters replaced |
| Telnet.Client.TerminalType | src/server/telnet.c:140-225 | a terminal type that is complete or not |
| Telnet.TerminalTypeIsStored | src/server/telnet.c:140-225 | the name that is stored for a terminal type that is sent |
| Telnet.Client.WindowSize | src/server/telnet.c:226-314 | a window size that is complete or not, cut to 10..250 |
| Telnet.WindowSizeIsStored | src/server/telnet.c:300-310 | the width and the height that are stored for the four bytes of a window size |
| Telnet.Client.Skip | src/server/telnet.c:315-351 | any other subnegotiation |
| Telnet.Client.Command | src/server/telnet.c:73-364 | one pass of the loop |
| Telnet.Client.Move | src/server/telnet.c:367 | moves the rest of the text down over the commands |
| Telnet.Client.ProcessTelnet | src/server/telnet.c:67-368 | ends on every input, within the buffer, with the specified buffer and connection |
| Telnet.PassIsProper | src/server/telnet.c:72-366 | on any input a pass finishes or goes on by at least three bytes, and changes nothing before the command and nothing behind a command it goes past |
| Telnet.ScanOfSub | src/server/telnet.c:148-154 | the scan of a complete subnegotiation ends at its SE |
| Telnet.PassOfCommand | src/server/telnet.c:73-364 | a pass over a complete command ends right behind it and has done what it asks for |
| Telnet.LoopOfCommands | src/server/telnet.c:72-366 | the loop goes over a run of complete commands and stops behind it |
| Telnet.StripsCommands | src/server/telnet.c:67-368 | a run of complete commands disappears, the text behind it stays byte for byte, what was before stays, and each command had its effect in order |
| Telnet.CutOffBehindVerb | src/server/telnet.c:77-132 | a command that the input ends in right behind its verb stays in the moved buffer if and only if the verb is neither WILL nor WONT, whose bytes go |
| Telnet.CutOffSubStays | src/server/telnet.c:156-161 | a subnegotiation that the input ends in stays where it is and has no effect |
| Telnet.OtherCommands | src/server/telnet.c:352-363 | a doubled IAC ends the loop, an unknown command is three bytes that are gone over unless the input ends in it |
| Telnet.NawsFollowsRfc | src/server/telnet.c:301-310 | the stored window size is the one that section 2 of RFC 1073 sends if and only if the high bytes do not matter |

## Left out

- HashMaps.HashMap.constructor: a start size of 1 or 2 is not modelled, because the search then starts below 1 and can give a table of one slot, whose step is a remainder by -1.
- HashMaps.HashMap.Insert: negative keys and null data are not modelled; a negative key gives a negative index in C, and null data looks like an empty slot.
- HashMaps.FindPrimeGreaterThan: `rand` may deceive the Fermat test only a bounded number of times in a run, as the growth of the table would not end against a generator that always deceives it.
- HashMaps.IsPrimeTest: products modulo the candidate are taken without the overflow of 64-bit words.
- The walks `hm_foreach` and `hm_next`, which stop at the first gap, and the string-keyed entry points `sm_insert`, `sm_get` and `sm_remove`.
- AutoMap.DrawMap: the output of `show_map` and its colours are not modelled; the map is the array it prints.
- Text.FirstToken: `strtok` keeps its position in shared memory; here a line is cut into tokens at once, while the source loads npcs and objects between its calls.
- Resets.ImportAndReset: states the meaning of each tree's script; `import_commit`, which can overwrite a room's earlier script, is not modelled.
- Resets.Room.Execute: the place an equipped object goes to is kept as the name in the script or left to `wear_obj`, which `Affects.Character.WearObj` models.
- Resets.Room.ResetRoom: `load_npc` and `load_object` are a set of ids that can be loaded.
- Ownership.World: the memory is a map from addresses for every struct field instead of one heap object per struct, so that pointers, sharing and list links are explicit; the lists of areas, which extraction does not touch, are not modelled.
- `char_to_room` and `char_from_room`: the same list operations on characters, with one more bit set.
- Affects.Character: carried objects and affects are records in sequences, so pointers into them are indexes; `src/macro.h`'s list macros are proved in `Ownership`.
- Affects.Character.AffectModify: the callbacks that set or clamp instead of adding (size, alignment, a single resist) are outside the ledger; so is `affect_remove_obj`, which applies the callback to the object itself.
- Affects.Character.WearAll: that every place that could be filled is filled is not stated, as an object put on can change the level that decides about the next.
- Flags.Flag: `init_flag` can set bits 8 to 31 of a word, which no other operation addresses; `copy_flags`, `remove_flags` and `flags_set` do not do what their names say and are not modelled.
- Flags.ParseFlags: `strtok` writes into the text it cuts; the text is not used afterwards.
- Explored.RoomCount: counts the set's size for words whose bits 8 to 31 are clear, as every flag operation leaves them.
- Layout.AlignString: negative widths are not modelled; a cell whose margins and borders are wider than its columns would ask for one.
- Layout.ExactWidth: the width and the text's length are far below the limit of `size_t`.
- Layout.ParseColorCodes: without colours only; with colours the same characters come with escape sequences between them, which occupy no columns. Writing to the socket always succeeds.
- Grids.Grid.GridSet: a row number equal to the number of rows, or a column number equal to the number of columns, is not refused by the source and reads behind the array; such places are not modelled.
- Grids.Grid.GridAdd: the columns a cell spans are not negative; `grid_set_next_row` and the inline border, whose fill reads the byte behind the border's character, are not modelled.
- Login.Client.HandleCommand: of the commands only logout, quit, delete and save are modelled, and of the handlers not those of the forum editor, which return to the command parser.
- Login.RunsAreSafe: characters that are not players are not modelled, although one of them can get the address of a destroyed character too; `crypt` is an arbitrary function.
- Login.Client.HandleConfirmAccountDelete: the account itself is freed and stays attached, and `destroy_client` frees it again; of this only the second `extract_char` is modelled, not the memory of the account.
- Login.LoadAccountPlayers: behind it the characters of an account are a list that ends; an account with two or more stored characters, whose list does not, is not modelled further.
- Login.Client.SavePlayer: a write takes effect as a whole or not at all, and accounts are stored by login: when two connections create the same account, either write may be the one that counts.
- Telnet.Client.ProcessTelnet: the last four bytes of the input buffer are NUL, because it is cleared once and never filled to its end.
- Telnet.CutOffBehindVerb: says what is in the buffer after the call; `read_line_from_client` fills the buffer from its front again, over what was left there, and is not modelled.
- Telnet.StripsCommands: of commands that are cut off at the end of the input, `Telnet.CutOffBehindVerb` covers those that end right behind their verb; for the others `Telnet.PassIsProper` says what any input keeps.
- Fixed buffer capacities, rotating static buffers and the overflow of counters: strings are sequences and counts are unbounded.
- sqlite, sockets, the select loop, websockets, Lua, OLC, forums, channels, socials, help, combat and regeneration.
