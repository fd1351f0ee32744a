# Silk core, modelled in Dafny

Silk is a test bed for Thread (IEEE 802.15.4) networks. It drives dev boards
through `wpantund`/`wpanctl`, and it keeps a pool of hardware modules that a
configuration file describes. It parses the tables `wpanctl` prints and can
report the nodes to an OTNS visualiser. This project models the part of Silk
that decides values and state. That is:

- the hardware pool (`hw_module`, `hw_resource`) and the blacklist and port
  mapping (`config`);
- the node classes (`base_node`, `wpan_node`, `wpantund_base`,
  `fifteen_four_dev_board`);
- the table parsers (`wpan_table_parser`) and the address helpers (`ip`,
  `hwaddr`);
- the OTNS bookkeeping (`otns_manager`), watchables, and the test helpers of
  `test_utils`.

The repository holds two copies of most files: `silk/` (Python 3) and the
older `src/` (Python 2). Where the two copies behave the same, one member
models both, and its row cites the `silk/` lines. Where they differ, the
`src/` behaviour has its own member, and its row cites the `src/` lines.

Modelling choices:

- Every parser is a total function into `Result`. The Python exception a
  bad input raises becomes an `Err` of that exception class.
- Objects whose fields the code updates in place are classes. Their methods
  state the new state as a function of the old one, and lemmas about those
  functions state what the code promises.
- Loops in the source are `while` loops, proved against a reference
  function. These include `_find_hw_module_unclaimed_by_model`,
  `_update_hw_modules`, `hwaddr_plain_add_colons`, `commands_almost_equal`
  and the `update_status` neighbour search.
- Files, USB lookups, clocks, random draws, `wpanctl` replies and sockets
  are parameters or recorded calls.

Python's own behaviour is modelled in helper modules. `PyCore` covers
slicing and the `str` methods. `PyInt` covers `int(s, base)` and hex and
decimal printing. `PyFloat` covers `int(float(s))`, and `PyRepr` covers
`repr` of strings.

Where the prose description of the repository and its code disagree, the
model follows the code. The cases where the code itself misbehaves are
listed under "## Findings". Each has an as-written member and a corrected
member.

## Model

| member | source | states |
|---|---|---|
| Config.SetItem | silk/config/config.py:82-89 | `d[k] = v` on an insertion-ordered dict: the dict stays well formed (keys distinct, one value per key) |
| Config.Mapped | silk/config/config.py:178-187 | a serial is mapped iff it is one of the mapping's keys |
| Config.Unmapped | silk/config/config.py:149-159 | the unmapped serials are a sub-list of the blacklist (its order kept), none of them mapped |
| Config.Config.constructor | silk/config/config.py:38-47 | the file defaults to `hwconfig.ini` in the home directory; the content is empty and then loaded |
| Config.Config.Load | silk/config/config.py:49-68 | the state after `load()` is the file's content, or the old content written back when the file cannot be read |
| Config.Config.Store | silk/config/config.py:70-80 | the file afterwards holds the blacklist and the mapping |
| Config.Config.LoadBlacklist | silk/config/config.py:116-119 | `None` loads as the empty list; nothing else changes |
| Config.Config.LoadPortMapping | silk/config/config.py:121-124 | `None` loads as the empty dict; nothing else changes |
| Config.Config.UpdatePortMapping | silk/config/config.py:82-89 | one mapping entry is set and the file is written |
| Config.Config.AddToBlacklist | silk/config/config.py:126-133 | the serial is appended only when absent, then the file is written |
| Config.Config.GetBlacklist | silk/config/config.py:135-140 | returns the blacklist |
| Config.Config.GetPort | silk/config/config.py:142-147 | the mapped port, or KeyError for a serial that is not mapped |
| Config.Config.BlacklistMapped | silk/config/config.py:109-114 | the `mapped &= ...` loop is true iff every blacklisted serial is mapped |
| Config.Config.GetUnmappedBlacklist | silk/config/config.py:149-159 | the loop returns exactly the blacklisted serials that are not mapped, in list order |
| Config.Config.Str | silk/config/config.py:94-107 | `str()` is the blacklist's and the mapping's text, each only when non-empty |
| Config.UnmappedSnoc | silk/config/config.py:149-159 | extending the blacklist by a serial extends the unmapped list by it exactly when it is not mapped |
| Config.UnmappedAppend | silk/config/config.py:149-159 | the unmapped serials of two joined lists are those of the first, then those of the second |
| Config.UnmappedMembers | silk/config/config.py:149-159 | a serial is listed as unmapped iff it is blacklisted and not mapped |
| Config.MappedIffNoneUnmapped | silk/config/config.py:109-114 | `blacklist_mapped()` holds iff `get_unmapped_blacklist()` is empty |
| Config.EmptyBlacklistMapped | silk/config/config.py:164-176 | an empty blacklist counts as mapped, whatever the mapping |
| Config.AppendedDistinct | silk/config/config.py:126-133 | `add_to_blacklist` keeps the blacklist free of duplicates |
| Config.AppendedIdempotent | silk/config/config.py:126-133 | adding a serial twice is adding it once |
| Config.SetItemOthers | silk/config/config.py:82-89 | `update_port_mapping` sets its key and leaves every other entry alone; the old keys keep their order and a new key comes last |
| Config.LoadNulls | silk/config/config.py:116-124 | a file with `null` for both keys loads as an empty blacklist and an empty mapping |
| Config.LoadUnreadable | silk/config/config.py:53-68 | a missing or unreadable file is written back from the unchanged content |
| Config.EmptyText | silk/config/config.py:94-107 | an empty config prints as the empty string |
| Config.TextStartsWithBlacklist | silk/config/config.py:94-107 | a non-empty blacklist prints first, as the `repr` of its serials between brackets |
| PyRepr.ReprRoundTrip | silk/config/config.py:94-107 | `repr(s)`, which `str()` of the blacklist uses, is quoted at both ends and its body unescapes back to `s` |
| Nodes.PostKeepsFirst | silk/node/base_node.py:85-94 | a pending error message is never overwritten; an empty slot takes the new one |
| Nodes.Stripped | silk/node/base_node.py:125-140 | the value `store_data` keeps: a string without surrounding whitespace, any other value unchanged |
| Nodes.StoreAfter | silk/node/base_node.py:125-140 | a field holding a watchable keeps it (the watchable is `set` instead); any other field holds the stripped value |
| Nodes.IntOf | silk/node/base_node.py:146-161 | `int(v)`: decimal text and ints convert; other values raise TypeError |
| Nodes.HexIntOf | silk/node/base_node.py:146-161 | `int(v, 16)`: only text may carry a base; anything else raises TypeError |
| Nodes.GetDataOf | silk/node/base_node.py:146-161 | `get_data` as written: an absent field's default goes through the same conversion; a ValueError gives the default |
| Nodes.GetDataDefaulted | silk/node/base_node.py:146-161 | `get_data` as intended: an absent field gives the default itself |
| Nodes.GetDataAgrees | silk/node/base_node.py:146-161 | the two readings agree on stored fields and on defaults that convert to themselves |
| Nodes.HexDefaultRaises | silk/node/base_node.py:151-161 | an absent `hex-int` field with an integer default raises TypeError as written |
| Nodes.ValueErrorGivesDefault | silk/node/base_node.py:146-161 | stored text that does not parse gives the default |
| Nodes.StrippedKeeps | silk/node/base_node.py:125-140 | text that starts and ends with a non-blank is stored unchanged |
| Nodes.StoreThenGet | silk/node/base_node.py:125-161 | text stored in a field without a watchable reads back stripped |
| Nodes.StoreCountThenGet | silk/node/base_node.py:125-161 | a count stored as `str(n)` reads back as `n` through `int` |
| Nodes.Ping6Count | silk/node/base_node.py:193-204 | `ping6_sent`/`ping6_received` give a number, or TypeError |
| Nodes.Ping6ResultsRoundTrip | silk/node/base_node.py:210-219 | the counts the ping summary stored are the ones the result reports, received first |
| Nodes.BaseNode.constructor | silk/node/base_node.py:41-48 | no error pending and an empty store |
| Nodes.BaseNode.Target | silk/node/base_node.py:125-140 | the objects `store_data` may change are the watchable the field holds, if any, which is among those the store holds |
| Nodes.HeldBy | silk/node/base_node.py:125-140 | the objects a store holds are all watchables |
| Nodes.ApartAfter | silk/node/base_node.py:125-140 | storing a value that shares no watchable with the other fields leaves every two fields sharing none |
| Nodes.HeldByAfter | silk/node/base_node.py:125-140 | storing a value that is not a watchable adds no watchable to the store |
| Nodes.ViewAfterAt | silk/node/base_node.py:125-140 | storing a non-watchable value changes what that field shows and no other: it keeps its kind (plain when new), shows the stripped value, and a history gains that value stamped with the time |
| Nodes.ViewOfPut | silk/node/base_node.py:137-138 | overwriting a field that holds no watchable shows as `ViewAfter` of what the store showed |
| Nodes.ViewOfSet | silk/node/base_node.py:131-134 | once the held watchable is `set` and every other field shows as before, the store shows as `ViewAfter` |
| Nodes.ShownKept | silk/node/base_node.py:125-140 | a value whose watchables are untouched shows as before |
| Nodes.ViewOfFramed | silk/node/base_node.py:125-140 | a store whose watchables are untouched shows as before |
| Nodes.SameView | silk/node/base_node.py:125-140 | two views with the same fields that agree field by field are equal |
| Nodes.ShownAtClearedEight | silk/node/wpantund_base.py:70-78 | storing None under eight different fields in turn shows each of them cleared once and every other field as before |
| Nodes.BaseNode.InError | silk/node/base_node.py:69-72 | true exactly when a message is pending |
| Nodes.BaseNode.GetError | silk/node/base_node.py:74-83 | returns the pending message or None, and the slot is empty afterwards |
| Nodes.BaseNode.PostError | silk/node/base_node.py:85-94 | the message is kept only when none is pending; the store is unchanged |
| Nodes.BaseNode.StoreData | silk/node/base_node.py:125-140 | the new store is `StoreAfter` of the old; a held watchable is `set` to the stripped value, a history gaining it stamped `now`; fields that shared no watchable still share none when the value shares none; and for a non-watchable value such a store then shows as `ViewAfter` of what it showed |
| Nodes.BaseNode.StoreValue | silk/node/base_node.py:125-140 | `store_data` of a value that is not a watchable adds no watchable, keeps fields apart, and shows as `ViewAfter` |
| Nodes.BaseNode.PutPlain | silk/node/base_node.py:137-138 | a field holding no watchable is overwritten with the stripped value and, for a non-watchable value, the store shows as `ViewAfter` |
| Nodes.BaseNode.SetHeld | silk/node/base_node.py:131-134 | the held watchable is `set` (a history stamped `now`), the map itself is unchanged, and when fields share no watchable the store shows as `ViewAfter` |
| Nodes.BaseNode.ClearStore | silk/node/base_node.py:142-144 | the store is empty afterwards |
| Nodes.BaseNode.GetData | silk/node/base_node.py:146-161 | returns `GetDataOf` of the store and changes nothing |
| Nodes.BaseNode.StorePing6Counts | silk/node/base_node.py:210-215 | a matched summary stores its two groups as the sent and received counts; other input raises AttributeError |
| Nodes.BaseNode.Ping6ResultsProcessAsWritten | silk/node/base_node.py:210-216 | as written: with a stored summary match, the sent and received labels take its two groups and then `ping6_get_results(self)` raises TypeError; without one, AttributeError and nothing changes |
| Nodes.BaseNode.Ping6ResultsProcess | silk/node/base_node.py:210-219 | as intended: the sent and received labels take the match's two groups and the result is the summary of that new store; without a match, AttributeError and nothing changes |
| WpanNodes.CredentialsTextLines | silk/node/wpan_node.py:33-50 | `str(credentials)` splits back into its six lines |
| WpanNodes.DefaultCredentialLines | silk/node/wpan_node.py:33-50 | the default credentials are network `wpan`, PSK `0`, channel 0 and PAN ID 0 |
| WpanNodes.AddressLabel | silk/node/wpan_node.py:94-95 | the store label of an address kind is `wpan_address(<kind>)` |
| WpanNodes.AddressLabelsDistinct | silk/node/wpan_node.py:94-95 | distinct address kinds get distinct labels, none of them a fixed label of the node |
| WpanNodes.UlaLabels | silk/node/wpan_node.py:101-116 | the two ULA getters read the labels of their address kinds |
| WpanNodes.AddressLabelNew | silk/node/wpan_node.py:57-67 | a kind outside a list of kinds has a label outside their labels |
| WpanNodes.Register | silk/node/wpan_node.py:57-67 | storing a new history cell under a fresh field adds exactly that field, and fields still share no watchable |
| WpanNodes.RegisterAddresses | silk/node/wpan_node.py:65-67 | the constructor's loop gives each address kind its own new history cell, and fields still share no watchable |
| WpanNodes.RegisterNext | silk/node/wpan_node.py:65-67 | one turn of that loop registers the next address kind |
| WpanNodes.NewWpanNode | silk/node/wpan_node.py:57-67 | a new node holds fresh, empty history cells under the state, version and address labels, no two fields sharing one |
| WpanNodes.AddressTypesFresh | silk/node/wpan_node.py:57-67 | the address kinds are distinct and their labels avoid the two fixed ones |
| WpanNodes.MacAddr | silk/node/wpan_node.py:131-138 | the stored value without its colons, `''` when absent, AttributeError for a non-string |
| WpanNodes.MacAddrGroups | silk/node/wpan_node.py:131-138 | a colon-separated address reads back as its groups run together |
| WpanNodes.PanidAbsent | silk/node/wpan_node.py:152-154 | with no PAN ID stored, the written getter raises TypeError and the intended one gives -1 |
| WpanNodes.PanidRoundTrip | silk/node/wpan_node.py:152-154 | a PAN ID stored as `0x` and four hex digits reads back as the number |
| WpanNodes.Channel | silk/node/wpan_node.py:168-170 | the channel is read with `int` and defaults to 0 |
| WpanNodes.ChannelRoundTrip | silk/node/wpan_node.py:168-170 | a channel stored as decimal text reads back as the number |
| WpanNodes.Pairs | silk/node/wpan_node.py:196-199 | adjacent groups are paired, and an unpaired last group is dropped |
| WpanNodes.PairsConcat | silk/node/wpan_node.py:196-199 | for an even count, pairing keeps every group, in order |
| WpanNodes.PostfixRegroups | silk/node/wpan_node.py:196-199 | the postfix is the regrouped address, and removing its colons gives the groups run together |
| WpanNodes.Ip6PostfixProcess | silk/node/wpan_node.py:196-199 | the stored text is regrouped and stored back; a field without a string raises AttributeError and changes nothing |
| WpanNodes.NetworkStateClear | silk/node/wpan_node.py:83-84 | the network-state watchable is set to "no network" (0); a field without a watchable raises AttributeError |
| WpantundBase.RolesInverse | silk/config/wpan_constants.py:182-189 | the table is its own inverse: it maps names to numbers and numbers back to names |
| WpantundBase.RoleIsThread | silk/node/wpantund_base.py:22-25 | numbers 2, 3 and 4 are Thread roles; a name is looked up first, so a known name is one and an unknown name raises KeyError |
| WpantundBase.RoleSupportsLegacy | src/node/wpantund_base.py:43-50 | src: numbers 0x82 and 6 support legacy networks; a known name never does; an unknown name raises KeyError |
| WpantundBase.ThreadRolesAreKeys | silk/node/wpantund_base.py:22-25 | the Thread roles are exactly the keys of the role table |
| WpantundBase.ThreadExcludesLegacy | src/node/wpantund_base.py:33-50 | src: no role is both a Thread role and a legacy one |
| WpantundBase.SrcRoleRewriteUnreached | src/node/wpantund_base.py:173-174 | src: the 0x82 rewrite of `form` never fires for a role the table knows |
| WpantundBase.RoleTextToken | silk/node/wpantund_base.py:133-171 | the role text `form` and `join` pass is one word |
| WpantundBase.ClearStep | silk/node/wpantund_base.py:70-78 | storing None under one label leaves the other labels alone |
| WpantundBase.ClearTwo | silk/node/wpantund_base.py:70-78 | two clearing steps leave both labels reading None |
| WpantundBase.ClearFour | silk/node/wpantund_base.py:70-78 | four clearing steps leave all four labels reading None |
| WpantundBase.ClearedFromReads | silk/node/wpantund_base.py:70-78 | after `clear_state`, fields outside the cleared labels read as before |
| WpantundBase.ClearedReadsNone | silk/node/wpantund_base.py:70-78 | after `clear_state`, every cleared label without a watchable reads None |
| WpantundBase.SetpropArgv | silk/node/wpantund_base.py:402-410 | `wpanctl` receives `setprop`, the key, `--data` exactly when asked for, then the value |
| WpantundBase.FormReadsBack | silk/node/wpantund_base.py:133-171 | the `form` command reads back as name, role and exactly the options given, in order |
| WpantundBase.FormSrcAgrees | src/node/wpantund_base.py:159-185 | for every role the table knows, the src `form` command is the silk one without options |
| WpantundBase.FormChannelOnly | silk/node/wpantund_base.py:133-171 | a `form` with only a channel passes just `-c` and the channel |
| WpantundBase.JoinReadsBack | silk/node/wpantund_base.py:173-203 | the `join` command reads back: channel in decimal, PAN ID in hex |
| WpantundBase.JoinNumbers | silk/node/wpantund_base.py:173-203 | the numbers in the `join` command read back as the network's channel and PAN ID |
| WpantundBase.JoinArgv | silk/node/wpantund_base.py:173-203 | the words of the `join` command, in order |
| WpantundBase.JoinSrcAgrees | src/node/wpantund_base.py:187-216 | for every role the table knows, the src `join` command is the silk one |
| WpantundBase.PermitJoinReadsBack | silk/node/wpantund_base.py:282-288 | the period `wpanctl` reads is never zero: the one given, or 240 |
| WpantundBase.PermitJoinNewArgv | silk/node/wpantund_base.py:290-303 | `permit-join`, the positional numbers, then the traffic flag; no positional word looks like a flag |
| WpantundBase.PermitJoinNewReadsBack | silk/node/wpantund_base.py:290-303 | the new `permit-join` command reads back by position: the port is never taken for the duration, and the traffic is the one asked for |
| WpantundBase.ReadPositional | silk/node/wpantund_base.py:290-303 | positional numbers read back from their words |
| WpantundBase.DiscoverScanReadsBack | silk/node/wpantund_base.py:328-331 | the discover-scan command reads back as exactly the options given |
| WpantundBase.AddPrefixReadsBack | silk/node/wpantund_base.py:338-354 | the `add-prefix` command reads back as prefix and exactly the flags given |
| WpantundBase.RemovePrefixReadsBack | silk/node/wpantund_base.py:356-359 | the `remove-prefix` command reads back as prefix and length |
| WpantundBase.AddRouteReadsBack | silk/node/wpantund_base.py:361-367 | the `add-route` command reads back as its options, with `-n` present exactly when the route is not stable |
| WpantundBase.AddRouteSrcGluesFlag | src/node/wpantund_base.py:356-361 | src: `-n` is glued to the previous word, so the stable flag does not read back |
| WpantundBase.AddRouteSrcExample | src/node/wpantund_base.py:361 | src: a concrete route whose last word carries the glued `-n` |
| WpantundBase.RemoveRouteReadsBack | silk/node/wpantund_base.py:369-375 | the `remove-route` command reads back as the route's options |
| WpantundBase.UpdatePropReadsBack | silk/node/wpantund_base.py:435-437 | any value comes back whole after `-v`, even one that starts with `-` or holds spaces |
| WpantundBase.UpdatePropTail | silk/node/wpantund_base.py:435-437 | `-d` appears exactly for binary data, and the value follows `-v ` |
| WpantundBase.ReadUpdatePropHead | silk/node/wpantund_base.py:435-437 | action and property read back from the first two words |
| WpantundBase.GetpropReadsSetting | silk/node/wpantund_base.py:412-417 | a `name = value` reply gives the stripped value; a reply without `=` comes back as it is |
| WpantundBase.AsciiIgnore | src/node/wpantund_base.py:382-390 | src drops the non-ASCII characters of a unicode reply |
| WpantundBase.GetpropSrcAgrees | src/node/wpantund_base.py:382-390 | an ASCII reply reads the same in both trees |
| WpantundBase.NetworkPropertyCalls | silk/node/wpantund_base.py:257-269 | the seven property queries, each with the caller's action and a 20 second timeout |
| WpantundBase.Wpanctl.constructor | silk/node/wpantund_base.py:53-61 | no `wpanctl` call is recorded yet |
| WpantundBase.Wpanctl.Run | silk/node/fifteen_four_dev_board.py:292-300 | a synchronous call is recorded and answered with the given reply |
| WpantundBase.Wpanctl.Queue | silk/node/fifteen_four_dev_board.py:284-290 | an asynchronous call is recorded with its expected reply, timeout and field |
| WpantundBase.Wpanctl.GetAddrHook | silk/node/fifteen_four_dev_board.py:260-278 | the dev board's `_get_addr` call is recorded |
| WpantundBase.ClearState | silk/node/wpantund_base.py:70-78 | None is stored under each state label, in order; the error slot is unchanged; only watchables the node holds may change, and when its fields share none the node shows as `ClearedView`: each cleared watchable shows None, a history gaining a None entry, and every other field as before |
| WpantundBase.ClearedViewShows | silk/node/wpantund_base.py:70-78 | after `clear_state`, each cleared field keeps its kind and shows None, a history gaining None stamped `now`; every other field shows as before |
| WpantundBase.Leave | silk/node/wpantund_base.py:271-275 | `leave` is queued with a 60 second timeout, then the state is cleared, with the store and held cells as `ClearState` gives them |
| WpantundBase.QueueBeside | silk/node/wpantund_base.py:271-275 | a queued `wpanctl` call leaves what the node shows unchanged |
| WpantundBase.FormNetwork | silk/node/wpantund_base.py:133-171 | the fabric id is stored before the role lookup; an unknown role raises KeyError; else the role is stored and the form command and the property queries are queued; only the watchables under the fabric-id and role labels may change, and when fields share none the node shows those two stores and nothing else |
| WpantundBase.StoreFabricThenKey | silk/node/wpantund_base.py:146-150 | `form` first stores the fabric id, then sets the network key; the node shows that one store |
| WpantundBase.QueueNetworkProperties | silk/node/wpantund_base.py:257-269 | exactly the seven property queries are queued, in order |
| WpantundBase.AttachCalls | silk/node/wpantund_base.py:133-203 | the command waited on for 60 seconds, the property queries, then `_get_addr` when asked for |
| WpantundBase.QueueAttach | silk/node/wpantund_base.py:133-203 | exactly the attach calls are queued, and what the node shows is unchanged |
| WpantundBase.JoinNetwork | silk/node/wpantund_base.py:173-203 | fabric id and xpanid stored first; an unknown role raises KeyError; else the role is stored, then the join command and the queries; only the watchables under those three labels may change, and when fields share none the node shows exactly those stores |
| WpantundBase.StoreJoinCredentials | silk/node/wpantund_base.py:184-190 | `join` first stores the fabric id and the xpanid, then queues the network key; only the watchables under those two labels may change, and when fields share none the node shows `JoinedView`: those two stores and nothing else |
| WpantundBase.StoreRoleThenAttach | silk/node/wpantund_base.py:192-203 | the looked-up role is stored, then the command, the property queries and, when asked, `_get_addr` are queued; only the role's watchable may change, and when fields share none the node shows that one store |
| WpantundBase.FormNetworkSrc | src/node/wpantund_base.py:159-185 | src `form`: no option flags, the role after the 0x82 rewrite, `_get_addr` always; held cells change as for `FormNetwork` |
| WpantundBase.JoinNetworkSrc | src/node/wpantund_base.py:187-216 | src `join`: the join command after the 0x82 rewrite, `_get_addr` always; held cells change as for `JoinNetwork` |
| WpantundBase.PermitJoin | silk/node/wpantund_base.py:282-288 | the steering data is set, then joining is permitted for the period |
| WpantundBase.PermitJoinNew | silk/node/wpantund_base.py:290-303 | with neither traffic type, returns `''` and calls nothing; otherwise runs exactly the new `permit-join` command and returns its reply |
| WpantundBase.GetDiscoverScan | silk/node/wpantund_base.py:328-331 | runs exactly the discover-scan command with a 20 second timeout and returns its reply |
| WpantundBase.AddPrefix | silk/node/wpantund_base.py:338-354 | runs exactly the `add-prefix` command with a 20 second timeout and returns its reply |
| WpantundBase.RemovePrefix | silk/node/wpantund_base.py:356-359 | runs exactly the `remove-prefix` command with a 20 second timeout and returns its reply |
| WpantundBase.AddRouteUsingPrefix | silk/node/wpantund_base.py:361-367 | runs exactly the `add-route` command with a 20 second timeout and returns its reply |
| WpantundBase.RemoveRoute | silk/node/wpantund_base.py:369-375 | runs exactly the `remove-route` command with a 20 second timeout and returns its reply |
| WpantundBase.AddRouteSrc | src/node/wpantund_base.py:356-361 | src: runs the route command with `-n` glued to its previous word |
| WpantundBase.RemoveRouteSrc | src/node/wpantund_base.py:363-367 | src: the call passes no timeout, so it raises TypeError and nothing is sent |
| WpantundBase.Setprop | silk/node/wpantund_base.py:402-410 | `setprop` is run with a 2 second timeout and its reply returned |
| WpantundBase.Getprop | silk/node/wpantund_base.py:412-417 | the property's value from the reply, after one `getprop` call |
| WpantundBase.GetpropSrc | src/node/wpantund_base.py:382-390 | src: as `getprop`, after a unicode reply is encoded to ASCII |
| WpantundBase.UpdateProp | silk/node/wpantund_base.py:426-437 | `set`/`add`/`remove` run one command with a 2 second timeout |
| DevBoard.ClassRun | silk/node/fifteen_four_dev_board.py:75 | the length of the run of class characters a text starts with |
| DevBoard.MatchHere | silk/node/fifteen_four_dev_board.py:75 | a match at the start of a text captures the new state |
| DevBoard.SearchFrom | silk/node/fifteen_four_dev_board.py:75-87 | a state `search` reports is non-empty and made only of characters the group accepts |
| DevBoard.SearchFromNone | silk/node/fifteen_four_dev_board.py:75-87 | when `search` finds nothing, the pattern matches at no position of the line |
| DevBoard.SearchFromLeftmost | silk/node/fifteen_four_dev_board.py:75-87 | the state `search` reports is the one captured at the leftmost position where the pattern matches |
| DevBoard.WpantundMonitor.constructor | silk/node/fifteen_four_dev_board.py:63-75 | not running, not crashed, no state, no framing errors |
| DevBoard.WpantundMonitor.SubscribeHandle | silk/node/fifteen_four_dev_board.py:81-106 | the monitor's new state is the step of one log line |
| DevBoard.StepStateLine | silk/node/fifteen_four_dev_board.py:81-106 | a state change line sets the state, and clears `running` only on a fault |
| DevBoard.StepFatalLine | silk/node/fifteen_four_dev_board.py:81-106 | a crash line sets `crashed` and clears `running` |
| DevBoard.FeedFramingErrors | silk/node/fifteen_four_dev_board.py:81-106 | the counter counts exactly the framing error lines, so it never goes down |
| DevBoard.FeedCrashed | silk/node/fifteen_four_dev_board.py:81-106 | after a run of lines, `crashed` holds iff it did or a line was a crash line |
| DevBoard.FeedState | silk/node/fifteen_four_dev_board.py:81-106 | the state shown is one a state change line captured |
| DevBoard.DotFreeNoMatch | silk/node/fifteen_four_dev_board.py:75 | as written, a line without a dot never matches |
| DevBoard.StateChangeRead | silk/node/fifteen_four_dev_board.py:75-90 | the quote-free pattern reads the new state of a state change line |
| DevBoard.FaultLineMissedAsWritten | silk/node/fifteen_four_dev_board.py:75-90 | as written, a fault line leaves the monitor running and its state unread |
| DevBoard.FaultLineStopsRunning | silk/node/fifteen_four_dev_board.py:75-90 | corrected, the same line records the fault and stops `running` |
| DevBoard.VerifyImageFlash | silk/node/fifteen_four_dev_board.py:498-502 | the log counts as complete iff one of its lines starts with the completion banner |
| DevBoard.CompletedLog | silk/node/fifteen_four_dev_board.py:498-502 | a log of lines without line breaks is complete iff one of those lines starts with the banner |
| DevBoard.CompletedLines | silk/node/fifteen_four_dev_board.py:498-502 | a log is complete iff one of the lines `split('\n')` gives starts with the banner |
| DevBoard.CompletedOneLine | silk/node/fifteen_four_dev_board.py:498-502 | a one-line log is complete iff it starts with the banner |
| DevBoard.FlashTarget | silk/node/fifteen_four_dev_board.py:539-544 | the chip whose flash helper `firmware_update` chooses from the file name |
| DevBoard.KillJobs | silk/node/fifteen_four_dev_board.py:536-537 | one SIGINT per process of the namespace, in order |
| DevBoard.DevBoardNode.constructor | silk/node/fifteen_four_dev_board.py:116-125 | no flash result, no shell commands, no written logs, no queued jobs |
| DevBoard.DevBoardNode.ImageFlashNrf52840 | silk/node/fifteen_four_dev_board.py:441-474 | erase then flash; the result is true iff both probe logs report completion |
| DevBoard.DevBoardNode.ImageFlashEfr32 | silk/node/fifteen_four_dev_board.py:476-496 | one script run; the result is whether its log reports completion |
| DevBoard.DevBoardNode.ImageFlashSrc | src/node/fifteen_four_dev_board.py:435-471 | src: TypeError right after the erase command; nothing is flashed |
| DevBoard.DevBoardNode.FirmwareUpdate | silk/node/fifteen_four_dev_board.py:511-544 | the kills, then one flash queued: chosen by file name in silk, always nRF52840 in src |
| DevBoard.DevBoardNode.RunFlash | silk/node/fifteen_four_dev_board.py:518-535 | a queued flash runs its chip's helper, the src helper for src's nRF52840 |
| DevBoard.Efr32ImageChoice | src/node/fifteen_four_dev_board.py:485-505 | for an EFR32 image, silk flashes an EFR32 and src an nRF52840 |
| DevBoard.TrimPrefix | silk/node/fifteen_four_dev_board.py:553-562 | a prefix ending in `::` loses its last colon |
| DevBoard.FirstWithPrefix | silk/node/fifteen_four_dev_board.py:553-562 | the first address with the prefix, `''` when none has it |
| DevBoard.TrimWidens | silk/node/fifteen_four_dev_board.py:553-562 | trimming the prefix only widens the search |
| DevBoard.FindInListing | silk/node/fifteen_four_dev_board.py:553-562 | on a printed listing, the search returns the first address with the trimmed prefix, or `''` |
| DevBoard.StartNcpArgv | silk/node/fifteen_four_dev_board.py:302-327 | NCP mode: path, socket option with the device, syslog mask when verbose, interface last |
| DevBoard.NcpCommand | silk/node/fifteen_four_dev_board.py:302-327 | the NCP command is its words joined by single spaces |
| DevBoard.StartEndsWithInterface | silk/node/fifteen_four_dev_board.py:302-327 | in every mode the command starts with wpantund's path and ends naming the interface |
| DevBoard.StartUnsupportedGlues | silk/node/fifteen_four_dev_board.py:302-327 | an unsupported mode is only logged, and `-I` is glued to the path |
| DevBoard.StartTreesAgree | src/node/fifteen_four_dev_board.py:296-321 | the two copies differ only in the RCP application's path |
| HwModule.DevDevices | silk/hw/hw_module.py:36-42 | both trees accept nRF52840 and the Nordic sniffer; only silk accepts Efr32 |
| HwModule.ConfigParser.constructor | silk/hw/hw_resource.py:43-50 | a parser with no sections |
| HwModule.ConfigParser.Set | silk/hw/hw_module.py:134-137 | one option of an existing section is set; a missing section raises NoSectionError |
| HwModule.ConfigParser.AddSection | silk/hw/hw_resource.py:89-99 | a new empty section is appended |
| HwModule.OptionStr | silk/hw/hw_module.py:139-142 | an absent option reads as `''` |
| HwModule.OptionNumber | silk/hw/hw_module.py:94-95 | `int(getfloat(...))`: absent gives 0, otherwise the float cut toward zero, or ValueError/OverflowError |
| HwModule.ModelOf | silk/hw/hw_module.py:85-89 | the explicit model, else the section's `HwModel`, else `''` |
| HwModule.PortLookup | silk/hw/hw_module.py:111-124 | the port is found only for a model in `dev_devices` and a readable number; otherwise ValueError, OverflowError or RuntimeError |
| HwModule.Written | silk/hw/hw_module.py:59-61 | ValueError for a non-integer number, NoSectionError for a missing section |
| HwModule.ClaimStep | silk/hw/hw_module.py:72-75 | claiming succeeds iff the module is free, and then it is claimed |
| HwModule.FreeStep | silk/hw/hw_module.py:77-80 | freeing succeeds iff the module is claimed, and then it is free |
| HwModule.HwModule.constructor | silk/hw/hw_module.py:50-57 | the fields hold the arguments and the module is not claimed |
| HwModule.HwModule.Claim | silk/hw/hw_module.py:72-75 | RuntimeError on a claimed module, otherwise the flag goes up |
| HwModule.HwModule.Free | silk/hw/hw_module.py:77-80 | RuntimeError on a free module, otherwise the flag goes down |
| HwModule.SetOptions | silk/hw/hw_module.py:134-137 | the three options are written to the module's section, or NoSectionError and nothing changes |
| HwModule.NewHwModule | silk/hw/hw_module.py:50-67 | checks, writes and port lookup; on success a fresh unclaimed module |
| HwModule.ClaimThenFree | silk/hw/hw_module.py:72-80 | claiming then freeing restores an unclaimed module |
| HwModule.PartialArgumentsRejected | silk/hw/hw_module.py:59-64 | a partial set of model, serial and number raises ValueError and writes nothing |
| HwModule.NoArgumentsReadSection | silk/hw/hw_module.py:59-67 | with none of the three, the parser is untouched and the port is given or looked up |
| HwModule.WrittenReadsBack | silk/hw/hw_module.py:85-95 | what `__set_options` writes reads back through the getters; other sections are unchanged |
| HwModule.WrittenOptions | silk/hw/hw_module.py:134-137 | the section afterwards holds the three options as text |
| HwModule.NumberReadsBack | silk/hw/hw_module.py:94-95 | an option holding `str(n)` reads back as `n` |
| HwModule.FloatOptionRead | silk/hw/hw_module.py:144-147 | `2.7` reads as 2, and `inf` raises OverflowError |
| PyFloat.FloatOfInteger | silk/hw/hw_module.py:144-147 | decimal integer text reads the same through `float()` as through `int()` |
| HwModule.ArgumentsWritten | silk/hw/hw_module.py:59-61 | with all three given, the section holds them and they read back |
| HwModule.BadNumberRejected | silk/hw/hw_module.py:59-61 | a number that is not an integer raises ValueError before anything is written |
| HwModule.MissingSectionRejected | silk/hw/hw_module.py:59-61 | a section the parser lacks raises NoSectionError |
| HwModule.Efr32OnlyInSilk | silk/hw/hw_module.py:111-124 | an Efr32 module is found in silk and rejected as unsupported in src |
| HwModule.SrcSearchesAsNrf52840 | src/hw/hw_module.py:101-103 | src looks a Nordic sniffer up under the nRF52840 model |
| HwModule.ExplicitModelWins | silk/hw/hw_module.py:85-89 | an explicit model wins over the section's |
| HwResource.Slots | silk/hw/hw_resource.py:110-146 | the state of each pool module, in order |
| HwResource.FirstFree | silk/hw/hw_resource.py:110-115 | the first free module of the model, in list order |
| HwResource.LastNamed | silk/hw/hw_resource.py:139-146 | the last module of the name |
| HwResource.Picked | silk/hw/hw_resource.py:71-87 | no module for a software version or when none is free; else the first free one |
| HwResource.ScanStep | silk/hw/hw_resource.py:117-124 | a known name is skipped; else the module is built and added when a port is found |
| HwResource.ScanFrom | silk/hw/hw_resource.py:117-124 | the pool after the scan, and the exception that stopped it, if any |
| HwResource.Updated | silk/hw/hw_resource.py:117-124 | `_update_hw_modules` on the whole section list |
| HwResource.Got | silk/hw/hw_resource.py:71-87 | an empty pool is loaded first; the picked module is claimed |
| HwResource.Taken | silk/hw/hw_resource.py:71-87 | the picked module is claimed |
| HwResource.HwResource.constructor | silk/hw/hw_resource.py:43-50 | no modules, an empty parser, the default file when none is named |
| HwResource.HwResource.FindUnclaimedByModel | silk/hw/hw_resource.py:110-115 | the loop finds `FirstFree` |
| HwResource.HwResource.FindByName | silk/hw/hw_resource.py:139-146 | the loop keeps the last match, as `LastNamed` does |
| HwResource.HwResource.FreeHwModule | silk/hw/hw_resource.py:64-69 | a pool member is freed, RuntimeError when free; other modules untouched |
| HwResource.HwResource.UpdateHwModules | silk/hw/hw_resource.py:117-124 | the loop follows `Updated` |
| HwResource.HwResource.AddFromSection | silk/hw/hw_resource.py:117-124 | one loop body: the module is added unless its name is known; RuntimeError is caught |
| HwResource.HwResource.BuildFromSection | silk/hw/hw_resource.py:120-123 | the module of a section whose name the pool does not know |
| HwResource.HwResource.AddModule | silk/hw/hw_resource.py:126-127 | a new module joins the end of the list |
| HwResource.HwResource.LoadConfig | silk/hw/hw_resource.py:52-62 | the file is read into the parser and the pool updated; a missing file is created when asked |
| HwResource.HwResource.ClaimAt | silk/hw/hw_resource.py:71-87 | claiming free module `i` changes entry `i` alone |
| HwResource.HwResource.Take | silk/hw/hw_resource.py:71-87 | the first free module of the model is claimed |
| HwResource.HwResource.GetHwModule | silk/hw/hw_resource.py:71-87 | load if empty, then claim and return the first free module, or HardwareNotFound |
| HwResource.HwResource.AddHwModule | silk/hw/hw_resource.py:89-99 | a known name changes nothing; else a section and a module are added |
| HwResource.Registry.constructor | silk/hw/hw_resource.py:152-159 | no pool yet |
| HwResource.Registry.GlobalInstance | silk/hw/hw_resource.py:152-159 | the first call builds the pool; later calls return it whatever file they name |
| HwResource.Render | silk/hw/hw_resource.py:38-39 | a template piece renders as its text or its argument, or IndexError |
| HwResource.Format | silk/hw/hw_resource.py:38-39 | `str.format` raises IndexError for a field past the arguments |
| HwResource.NotFoundTextRaises | silk/hw/hw_resource.py:38-39 | rendering the exception always raises IndexError |
| HwResource.NotFoundMessageText | silk/hw/hw_resource.py:38-39 | corrected, the text names the model and the module asked for |
| HwResource.FormatAppend | silk/hw/hw_resource.py:38-39 | formatting two parts is formatting each part |
| HwResource.GotTwiceDiffers | silk/hw/hw_resource.py:71-87 | two calls in a row never hand out the same module |
| HwResource.GotThenFreed | silk/hw/hw_resource.py:64-87 | freeing the module handed out restores the pool |
| HwResource.SwVersionNotFound | silk/hw/hw_resource.py:71-87 | asking for a software version always raises HardwareNotFound |
| HwResource.AddedTwice | silk/hw/hw_resource.py:89-99 | adding a name twice is adding it once |
| HwResource.ScanStepShape | silk/hw/hw_resource.py:117-124 | one step adds at most one module: free, no explicit model, named after its section |
| HwResource.ScanStepCovers | silk/hw/hw_resource.py:117-124 | after a step the section is named, or its lookup raised RuntimeError |
| HwResource.ScanPrefix | silk/hw/hw_resource.py:117-124 | the scan only appends |
| HwResource.ScanNewSlots | silk/hw/hw_resource.py:117-124 | every added module is free, has no explicit model and is named after a section |
| HwResource.ScanDistinct | silk/hw/hw_resource.py:117-124 | the scan never adds a name twice, nor one already present |
| HwResource.ScanCovers | silk/hw/hw_resource.py:117-124 | after a clean scan every section is named or has no device |
| HwResource.ScanFixed | silk/hw/hw_resource.py:117-124 | a scan with nothing to add changes nothing |
| HwResource.UpdateIdempotent | silk/hw/hw_resource.py:117-124 | running `_update_hw_modules` again adds nothing |
| HwResource.LoadTwice | silk/hw/hw_resource.py:52-62 | loading the same file twice is loading it once |
| Watchables.Watchable.constructor | silk/tools/watchable.py:40-45 | the cell holds its initial value and name |
| Watchables.Watchable.Get | silk/tools/watchable.py:47-52 | returns the value |
| Watchables.Watchable.Set | silk/tools/watchable.py:54-74 | the cell holds the new value; `modified` is true iff it differs from the old one |
| Watchables.WatchableWithHistory.constructor | silk/tools/watchable.py:152-155 | an empty history and the initial value |
| Watchables.WatchableWithHistory.Get | silk/tools/watchable.py:167-181 | the initial value while the history is empty, else the last value appended |
| Watchables.WatchableWithHistory.GetHistory | silk/tools/watchable.py:184-185 | the entries in the order they were appended |
| Watchables.WatchableWithHistory.At | silk/tools/watchable.py:189-190 | Python indexing with negative indices; IndexError outside the history |
| Watchables.WatchableWithHistory.Append | silk/tools/watchable.py:195-203 | ValueError for an item that is not a pair; else exactly that entry is appended and becomes current |
| Watchables.WatchableWithHistory.Set | silk/tools/watchable.py:207-208 | appends the value stamped with the clock reading |
| TestUtils.CommandsAlmostEqual | silk/unit_tests/test_utils.py:33-68 | the loop decides `AlmostEqual`: same token count and every token pair equal or numbers within the tolerance |
| TestUtils.PartsAgree | silk/unit_tests/test_utils.py:54-68 | the loop is false at the first pair of tokens that disagrees |
| TestUtils.PartsClose | silk/unit_tests/test_utils.py:55-66 | equal tokens pass; others must both read as integers within the tolerance |
| TestUtils.AlmostEqualSymmetric | silk/unit_tests/test_utils.py:33-68 | the comparison does not depend on the order of the commands |
| TestUtils.TokenCountsDiffer | silk/unit_tests/test_utils.py:46-52 | different token counts are never almost equal |
| TestUtils.NumbersClose | silk/unit_tests/test_utils.py:58-64 | two decimal numbers agree iff equal or at most the tolerance apart |
| TestUtils.JoinedClose | silk/unit_tests/test_utils.py:33-68 | commands whose words agree pairwise are almost equal |
| TestUtils.WordMismatch | silk/unit_tests/test_utils.py:33-68 | a changed non-numeric word makes them differ, whatever the tolerance |
| TestUtils.AsciiLetter | silk/unit_tests/test_utils.py:21-30 | every entry of the letter table is an ASCII letter |
| TestUtils.RandomString | silk/unit_tests/test_utils.py:21-30 | `length` letters (none for a negative length), each an ASCII letter |
| HwAddr.NibbleValue | silk/postprocessing/hwaddr.py:16-29 | a hex digit's value, or ValueError |
| HwAddr.NibbleIsInt | silk/postprocessing/hwaddr.py:16-29 | `int(c, 16)` on one character is `NibbleValue` |
| HwAddr.HwaddrPlainAddColons | silk/postprocessing/hwaddr.py:16-29 | the source's loop computes `Eui` |
| HwAddr.EuiLayout | silk/postprocessing/hwaddr.py:16-29 | colon after every second digit but the last; digits kept but the second, whose bit worth 2 is cleared |
| HwAddr.EuiDigits | silk/postprocessing/hwaddr.py:16-29 | every digit but the second is printed with its value |
| HwAddr.EuiColons | silk/postprocessing/hwaddr.py:16-29 | a colon follows every second digit but the last |
| HwAddr.EuiUpper | silk/postprocessing/hwaddr.py:16-29 | the result has no lower-case letter |
| HwAddr.EuiOfSixteen | silk/postprocessing/hwaddr.py:16-29 | sixteen digits give 23 characters |
| HwAddr.EuiRejects | silk/postprocessing/hwaddr.py:16-29 | any non-hex character raises ValueError |
| HwAddr.HwaddrFromIidLayout | silk/postprocessing/hwaddr.py:32-38 | `hwaddr_from_iid` ignores the colons of the identifier |
| Ip.FindAllHex4 | silk/postprocessing/ip.py:78-115 | every match is four hex digits |
| Ip.Ipv6Assemble | silk/postprocessing/ip.py:78-115 | ValueError unless the parts have 12, 4 and 16 digits |
| Ip.Assemble | silk/postprocessing/ip.py:118-120 | ValueError unless the fabric id has 10 digits |
| Ip.GetPrefix | silk/postprocessing/ip.py:41-47 | defined iff the address has 39 characters; the first 15 of them |
| Ip.GetSubnet | silk/postprocessing/ip.py:59-65 | defined iff the address has 39 characters; the fourth group |
| Ip.GetIid | silk/postprocessing/ip.py:50-56 | defined iff the address has 39 characters; the last 19 |
| Ip.LlaToHwaddr | silk/postprocessing/ip.py:68-75 | None unless 39 characters; else `hwaddr_from_iid` of the identifier |
| Ip.Lower64 | silk/postprocessing/ip.py:78-115 | sixteen hex digits worth the identifier with bit 57 set |
| Ip.Lower64Digits | silk/postprocessing/ip.py:78-115 | only the second digit changes: its bit worth 2 is set |
| Ip.Lower64Eui | silk/postprocessing/ip.py:78-115 | `hwaddr_from_iid` reads the printed identifier as the original one |
| Ip.AssembleSteps | silk/postprocessing/ip.py:78-115 | on hex digits nothing raises and nothing is cleaned away |
| Ip.AssembleLayout | silk/postprocessing/ip.py:78-115 | 39 characters from which the getters read back the three parts |
| Ip.SubnetRoundTrip | silk/postprocessing/ip.py:59-115 | the subnet read back is the subnet given |
| Ip.PrefixRoundTrip | silk/postprocessing/ip.py:41-115 | the prefix read back, colons removed, is the prefix given |
| Ip.IidRoundTrip | silk/postprocessing/ip.py:50-115 | the identifier read back gives the same hardware address as the one given |
| Ip.LlaOfAssembled | silk/postprocessing/ip.py:68-115 | `lla_to_hwaddr` of an assembled address is the identifier's hardware address |
| Ip.AssembleFabric | silk/postprocessing/ip.py:118-120 | the assembled prefix starts with `fd` |
| WpanTableParser.MapResult | silk/tools/wpan_table_parser.py:128-133 | a list comprehension: one result per element, or the first element's exception |
| WpanTableParser.ParseChildEntry | silk/tools/wpan_table_parser.py:75-97 | a line with no tokens raises IndexError; the first token is the extended address; a token without a colon raises IndexError and a missing key KeyError, nothing else |
| WpanTableParser.ParseNeighborEntry | silk/tools/wpan_table_parser.py:147-166 | a line with no tokens raises IndexError; the first token is the extended address; only IndexError or KeyError is raised |
| WpanTableParser.ParseRouterTableEntry | silk/tools/wpan_table_parser.py:202-224 | a line with no tokens raises IndexError; the first token is the extended address; only IndexError, KeyError or ValueError is raised |
| WpanTableParser.ParseAddressCacheEntry | silk/tools/wpan_table_parser.py:261-279 | fewer than three tokens raise IndexError; the first token is the address and the third, read in hex, the RLOC16; only IndexError, KeyError or ValueError is raised |
| WpanTableParser.ParseChildTableResult | silk/tools/wpan_table_parser.py:128-133 | one child per line between the brackets (a last line holding `]` dropped), in order, or the exception some line raises |
| WpanTableParser.ParseNeighborTableResult | silk/tools/wpan_table_parser.py:191-196 | one neighbor per line between the brackets (a last line holding `]` dropped), in order, or the exception some line raises |
| WpanTableParser.ParseRouterTableResult | silk/tools/wpan_table_parser.py:253-255 | one router per interior line, in order, or the exception some line raises |
| WpanTableParser.ParseAddressCacheTableResult | silk/tools/wpan_table_parser.py:297-299 | one cache entry per interior line, in order, or the exception some line raises |
| WpanTableParser.ParseList | silk/tools/wpan_table_parser.py:425-442 | one word per interior line, and IndexError is the only exception |
| WpanTableParser.ChildEntryRoundTrip | silk/tools/wpan_table_parser.py:72-98 | a printed child line parses back as the entry |
| WpanTableParser.NeighborEntryRoundTrip | silk/tools/wpan_table_parser.py:144-168 | a printed neighbor line parses back as the entry |
| WpanTableParser.RouterEntryRoundTrip | silk/tools/wpan_table_parser.py:199-224 | a printed router line parses back as the entry |
| WpanTableParser.RouterTableRoundTrip | silk/tools/wpan_table_parser.py:253-255 | a printed router table parses back as its entries, in order |
| WpanTableParser.AddressCacheEntryRoundTrip | silk/tools/wpan_table_parser.py:258-279 | a printed address-cache line parses back as the entry |
| WpanTableParser.ChildAddressEntryRoundTrip | silk/tools/wpan_table_parser.py:34-54 | a printed child-address line parses back, even with several addresses |
| WpanTableParser.ChildTableRoundTrip | silk/tools/wpan_table_parser.py:128-133 | a printed child table parses back as its entries, in order |
| WpanTableParser.NeighborTableRoundTrip | silk/tools/wpan_table_parser.py:191-196 | a printed neighbor table parses back as its entries, in order |
| WpanTableParser.AddressCacheTableRoundTrip | silk/tools/wpan_table_parser.py:297-299 | a printed address-cache table parses back as its entries, in order |
| WpanTableParser.ChildAddressTableRoundTrip | silk/tools/wpan_table_parser.py:136-141 | a printed child-address table parses back as its entries, in order |
| WpanTableParser.ChildTrailerRulesDiffer | silk/tools/wpan_table_parser.py:128-141 | a closing line with a leading blank: the child table drops it, the child-address table raises KeyError |
| WpanTableParser.ParseListShape | silk/tools/wpan_table_parser.py:425-442 | one first token per interior line; IndexError iff an interior line is blank |
| WpanTableParser.InteriorErr | silk/tools/wpan_table_parser.py:425-442 | the interior fails iff one of its lines is blank |
| WpanTableParser.ParseListRoundTrip | silk/tools/wpan_table_parser.py:425-442 | a printed list parses back as its addresses |
| WpanTableParserSrc.ParseChildAddressEntry | src/tools/wpan_table_parser.py:34-51 | src: IndexError on a blank line; otherwise the first token is the extended address |
| WpanTableParserSrc.ParseChildTableAddressResult | src/tools/wpan_table_parser.py:133-138 | src: one entry per line the child-table trailer rule keeps |
| WpanTableParserSrc.ChildAddressEntryRoundTrip | src/tools/wpan_table_parser.py:34-51 | src: a line of one-word fields parses back as the entry |
| WpanTableParserSrc.SrcTwoAddresses | src/tools/wpan_table_parser.py:34-51 | src: with two addresses, the address list stops at the first blank |
| WpanTableParserSrc.ChildAddressSplitsDiffer | src/tools/wpan_table_parser.py:34-51 | on two addresses silk keeps the whole list and src only the first |
| WpanTableParserSrc.ChildAddressTrailerDiffers | src/tools/wpan_table_parser.py:133-138 | the src trailer rule drops the line the silk rule raises on |
| WpanTableParserSrc.ChildAddressTableRoundTrip | src/tools/wpan_table_parser.py:133-138 | src: a printed child-address table whose last line holds no `]` parses back as its entries |
| WpanTableParserSrc.SrcDropsBracketedLast | src/tools/wpan_table_parser.py:133-138 | src: output without a final line break loses its last child when that line lists `[...]` addresses, where silk keeps it |
| WpanTableParserSrc.ChildAddressTableNewlineRoundTrip | src/tools/wpan_table_parser.py:133-138 | src: output ending in a line break parses back as all its entries, whatever brackets the lines hold |
| ScanTable.Cells | silk/tools/wpan_table_parser.py:313 | one stripped cell per `|`-separated part |
| ScanTable.ScanOfCells | silk/tools/wpan_table_parser.py:311-339 | 8 cells give an active scan, 7 a discovery scan, 2 an energy scan; any other count gives nothing |
| ScanTable.ParseScanResultAsWritten | silk/tools/wpan_table_parser.py:311-339 | as written, a bad row raises AttributeError |
| ScanTable.ParseScanResult | silk/tools/wpan_table_parser.py:311-339 | corrected, a bad row raises ValueError; good rows give a well-formed result |
| ScanTable.ScanErrorAsWritten | silk/tools/wpan_table_parser.py:339 | on `garbage`, as written AttributeError, corrected ValueError |
| ScanTable.ParseScanResultTable | silk/tools/wpan_table_parser.py:377-389 | corrected, one well-formed result per row after the two header lines |
| ScanTable.ParseScanResultTableAsWritten | silk/tools/wpan_table_parser.py:377-389 | as written, a failing table raises AttributeError |
| ScanTable.RowAsWrittenAgrees | silk/tools/wpan_table_parser.py:311-339 | the two row parsers fail on the same rows and agree elsewhere |
| ScanTable.ScanTableAsWrittenAgrees | silk/tools/wpan_table_parser.py:377-389 | the two table parsers fail on the same tables, with AttributeError and ValueError |
| ScanTable.ScanRowRoundTrip | silk/tools/wpan_table_parser.py:311-339 | a printed row parses back as the result |
| ScanTable.ScanTableRoundTrip | silk/tools/wpan_table_parser.py:377-389 | a printed table parses back as its results, in order |
| ScanTable.ScanTableErrorAsWritten | silk/tools/wpan_table_parser.py:377-389 | a table with a `garbage` row raises AttributeError as written and ValueError as intended |
| ScanTable.Attr | silk/tools/wpan_table_parser.py:392-422 | an attribute the result lacks raises AttributeError |
| ScanTable.ItemMatches | silk/tools/wpan_table_parser.py:407-419 | a row gives True iff it matches the node; a missing network name raises AttributeError |
| ScanTable.InScan | silk/tools/wpan_table_parser.py:405-420 | True only when some row matches, False only when none does |
| ScanTable.IsInScanResult | silk/tools/wpan_table_parser.py:392-422 | the search result is true iff some row of some table matches; comparable rows never raise |
| ScanTable.EnergyScanRaises | silk/tools/wpan_table_parser.py:392-422 | an energy scan in front raises AttributeError, whatever the node |
| OnMeshPrefix.ParseOnMeshPrefix | silk/tools/wpan_table_parser.py:445-473 | a line the pattern does not match raises AttributeError |
| OnMeshPrefix.ParseOnMeshPrefixResult | silk/tools/wpan_table_parser.py:519-521 | one prefix per interior line, or AttributeError |
| OnMeshPrefix.LastTailAt | silk/tools/wpan_table_parser.py:455-457 | the greedy `.*` stops at the latest offset where the rest of the pattern matches |
| OnMeshPrefix.OnMeshPrefixRoundTrip | silk/tools/wpan_table_parser.py:445-473 | a printed prefix line parses back as the prefix |
| OnMeshPrefix.OnMeshPrefixResultOf | silk/tools/wpan_table_parser.py:519-521 | lines that each parse give those prefixes, in order |
| OnMeshPrefix.OnMeshPrefixTableRoundTrip | silk/tools/wpan_table_parser.py:519-521 | a printed prefix table parses back as its prefixes, in order |
| OtnsManager.AsciiEncode | silk/tools/otns_manager.py:193-204 | `encode("ascii")`: the character codes, or an error for non-ASCII text |
| OtnsManager.StatusEvent | silk/tools/otns_manager.py:193-204 | a status push carrying the message in ASCII; non-ASCII text raises |
| OtnsManager.LittleEndian | silk/tools/otns_manager.py:218-233 | the low bytes of a number, lowest first |
| OtnsManager.ToBytes | silk/tools/otns_manager.py:218-233 | an 11-byte little-endian header and the data, or `struct.error` when a field does not fit |
| OtnsManager.LittleEndianRoundTrip | silk/tools/otns_manager.py:218-233 | the bytes read back as the number |
| OtnsManager.EventRoundTrip | silk/tools/otns_manager.py:218-233 | every event whose header fits reads back as itself |
| OtnsManager.StatusEventRoundTrip | silk/tools/otns_manager.py:193-233 | an ASCII message goes out as 11 + its length bytes and reads back as a status push of it |
| OtnsManager.AlarmPacket | silk/tools/otns_manager.py:206-233 | the alarm event is this fixed 11-byte packet |
| OtnsManager.RoleValue | silk/tools/otns_manager.py:70-75 | the numbers of the roles |
| OtnsManager.StatusText | silk/tools/otns_manager.py:318-372 | a status text is ASCII, so encoding it cannot raise |
| OtnsManager.RoleMessage | silk/tools/otns_manager.py:326-332 | the role message is `role=` and one digit |
| OtnsManager.StatusMessage | silk/tools/otns_manager.py:318-372 | the text of each status the node sends |
| OtnsManager.GrpcClient.constructor | silk/tools/otns_manager.py:89-100 | no request is recorded yet |
| OtnsManager.OtnsNode.constructor | silk/tools/otns_manager.py:257-298 | role DISABLED, no address, children or neighbors, not created, nothing sent |
| OtnsManager.OtnsNode.UpdateExtaddr | silk/tools/otns_manager.py:374-382 | the node's new state is `UpdatedExtaddr` of the old |
| OtnsManager.OtnsNode.UpdateRole | silk/tools/otns_manager.py:384-392 | the node's new state is `UpdatedRole` of the old |
| OtnsManager.OtnsNode.AddChild | silk/tools/otns_manager.py:394-402 | the node's new state is `ChildAdded` of the old |
| OtnsManager.OtnsNode.RemoveChild | silk/tools/otns_manager.py:404-412 | the node's new state is `ChildRemoved` of the old |
| OtnsManager.OtnsNode.AddRouter | silk/tools/otns_manager.py:414-422 | the node's new state is `RouterAdded` of the old |
| OtnsManager.OtnsNode.RemoveRouter | silk/tools/otns_manager.py:424-432 | the node's new state is `RouterRemoved` of the old |
| OtnsManager.OtnsNode.CreateOtnsNode | silk/tools/otns_manager.py:434-445 | the node is created; the add request goes out only the first time |
| OtnsManager.OtnsNode.DeleteOtnsNode | silk/tools/otns_manager.py:447-456 | the node is deleted; the delete request goes out only when it existed |
| OtnsManager.OtnsNode.UpdateVisPosition | silk/tools/otns_manager.py:458-470 | the node moves, and a move request goes out only for a new place |
| OtnsManager.ExtaddrUpdate | silk/tools/otns_manager.py:374-382 | the address is set; an event goes out iff it changed; a repeat changes nothing |
| OtnsManager.RoleUpdate | silk/tools/otns_manager.py:384-392 | the role is set; an event goes out iff it changed; a repeat changes nothing |
| OtnsManager.ChildAddedSet | silk/tools/otns_manager.py:394-402 | set insertion; an event goes out iff membership changes |
| OtnsManager.ChildRemovedSet | silk/tools/otns_manager.py:404-412 | set deletion; an event goes out iff membership changes |
| OtnsManager.RouterAddedSet | silk/tools/otns_manager.py:414-422 | set insertion; an event goes out iff membership changes |
| OtnsManager.RouterRemovedSet | silk/tools/otns_manager.py:424-432 | set deletion; an event goes out iff membership changes |
| OtnsManager.ChildAddRemove | silk/tools/otns_manager.py:394-412 | adding then removing a new child restores the children and reports both |
| OtnsManager.CreateDelete | silk/tools/otns_manager.py:434-456 | a second create, or a second delete, makes no request |
| OtnsManager.MoveOnce | silk/tools/otns_manager.py:458-470 | a repeated move is a no-op |
| OtnsManager.OtnsNodeSummary.constructor | silk/tools/otns_manager.py:519-530 | a summary with empty histories |
| OtnsManager.OtnsNodeSummary.ExtaddrChanged | silk/tools/otns_manager.py:532-541 | the summary's new state is `NoteExtaddr` of the old |
| OtnsManager.OtnsNodeSummary.RoleChanged | silk/tools/otns_manager.py:543-552 | the summary's new state is `NoteRole` of the old |
| OtnsManager.OtnsNodeSummary.ChildChanged | silk/tools/otns_manager.py:554-563 | the summary's new state is `NoteChild` of the old |
| OtnsManager.OtnsNodeSummary.NeighborChanged | silk/tools/otns_manager.py:565-574 | the summary's new state is `NoteNeighbor` of the old |
| OtnsManager.NotedHistory | silk/tools/otns_manager.py:532-552 | noting a value keeps the history free of neighbouring repeats, ends it with the value, adds at most one entry |
| OtnsManager.SummaryUpdatesValid | silk/tools/otns_manager.py:532-574 | every update keeps both histories free of neighbouring repeats |
| OtnsManager.Dropped | silk/tools/otns_manager.py:736-758 | the boards but the one removed, in order |
| OtnsManager.FirstWith | silk/tools/otns_manager.py:799-807 | the first managed node with the address |
| OtnsManager.FindFirstWith | silk/tools/otns_manager.py:799-807 | the loop finds `FirstWith` |
| OtnsManager.UnlinkNeighbors | silk/tools/otns_manager.py:799-807 | each former neighbor leaves the node, and the node leaves the neighbor's node |
| OtnsManager.UnlinkChildren | silk/tools/otns_manager.py:799-807 | each child leaves the node |
| OtnsManager.UnlinkAll | silk/tools/otns_manager.py:792-808 | the clean-up of a DISABLED or DETACHED role, in the order the sets yield |
| OtnsManager.ApplyStatus | silk/tools/otns_manager.py:785-844 | a status is applied to the node, noted in its summary, and the links cleared for DISABLED or DETACHED |
| OtnsManager.ClearedOthers | silk/tools/otns_manager.py:792-808 | a status that keeps the address keeps which node is first with an address |
| OtnsManager.NodeAdded | silk/tools/otns_manager.py:710-734 | a new board gets a created node and a fresh summary; a known board only has its node created again |
| OtnsManager.NodeRemoved | silk/tools/otns_manager.py:736-758 | an attached board is detached and its node leaves the map |
| OtnsManager.ExtaddrUpdated | silk/tools/otns_manager.py:852-869 | the board's node and its summary take the new address |
| OtnsManager.Forwarded | silk/tools/otns_manager.py:842-844 | a forwarded message must be ASCII and short enough for the header |
| OtnsManager.OtnsManager.constructor | silk/tools/otns_manager.py:646-671 | no boards, nodes or summaries |
| OtnsManager.OtnsManager.AddNode | silk/tools/otns_manager.py:710-734 | the new state is `NodeAdded`, with exactly its requests |
| OtnsManager.OtnsManager.RemoveNode | silk/tools/otns_manager.py:736-758 | the new state is `NodeRemoved`, with exactly its requests |
| OtnsManager.OtnsManager.ProcessNodeStatus | silk/tools/otns_manager.py:760-850 | the new state is one `update_status` allows for the status, and the manager stays valid |
| OtnsManager.OtnsManager.ProcessStatusLine | silk/tools/otns_manager.py:780-843 | an `[OTNS]` status of a known node: the new state and result are those `update_status` allows for it, and the manager stays valid |
| OtnsManager.OtnsManager.ForwardStatus | silk/tools/otns_manager.py:841-843 | any other status is sent on as an event: ASCII text under 65536 characters is sent and the node notes it; otherwise the encoding or length error is raised and nothing changes |
| OtnsManager.OtnsManager.UpdateExtaddr | silk/tools/otns_manager.py:852-869 | the new state is `ExtaddrUpdated` |
| OtnsManager.AddedValid | silk/tools/otns_manager.py:710-734 | `add_node` keeps the manager's invariant |
| OtnsManager.RemovedValid | silk/tools/otns_manager.py:736-758 | `remove_node` keeps the manager's invariant |
| OtnsManager.ExtaddrUpdatedValid | silk/tools/otns_manager.py:852-869 | `update_extaddr` keeps the manager's invariant |
| OtnsManager.AddTwice | silk/tools/otns_manager.py:710-734 | adding a board twice is adding it once, with no further request |
| OtnsManager.AddThenRemove | silk/tools/otns_manager.py:710-758 | a new board added and removed leaves the node map as it was; OTNS saw create and delete |
| OtnsManager.ExtaddrUpdatedTwice | silk/tools/otns_manager.py:852-869 | reporting the same address again changes nothing |
| OtnsManager.ExtaddrStatusIsUpdate | silk/tools/otns_manager.py:785-790 | an `extaddr=` status does what `update_extaddr` does |
| OtnsManager.ClearedNodeIsolated | silk/tools/otns_manager.py:792-808 | a DISABLED or DETACHED role leaves the node with no children or neighbors, one removal sent per link |
| OtnsManager.DispatchOrder | silk/tools/otns_manager.py:773-850 | the patterns are tried in a fixed order, the extended address first |

## Left out

- Process, namespace and socket plumbing of the dev board: `set_up`, `tear_down`, the `ip` and `netns` commands, and `_get_addr`. `_get_addr` is a recorded call.
- The remaining wpantund operations: `provisional_join`, `join_node`, `resume`, `get_active_scan`, `get_energy_scan`, `config_gateway1`, the `commissioner_*` and `joiner_*` calls, `get`, `ping6`, `timed_ping6`, `send_udp_data`, `receive_udp_data`, `allowlist_node`, `free_device`, `reset_thread_radio` and `firmware_version`. Each only wraps a `wpanctl` call or a shell command with no logic of its own.
- `get_thread_sniffer` and `print_hw_modules` of the hardware pool: a sniffer lookup through USB enumeration, and a print.
- `OtnsManager.update_layout` and `layout_node`: floating-point placement on a circle.
- OTNS `set_test_title`, `subscribe_to_node`, `unsubscribe_from_node`, `unsubscribe_from_all_nodes` and `WpantundOtnsMonitor.process_log_line`: signal wiring with no state of its own. Sockets and gRPC are recorded calls.
- OtnsManager.OtnsManager.ProcessNodeStatus: the regular expressions that classify a log line are not modelled. The status arrives already classified, as a kind and a value.
- Nodes.GetDataOf: `to_type` has no `float`. `ping6_round_trip_time` (silk/node/base_node.py:226-228) reads a float and is not modelled.
- Nodes.IntOf: Python's `int()` accepts underscores between digits and non-ASCII digits. `ParseInt` accepts only ASCII digits without underscores.
- WpanNodes.Channel: the same restriction as `Nodes.IntOf`.
- TestUtils.CommandsAlmostEqual: the same restriction. For example, `1_0` and `10` compare equal in Python and not here. The tolerance is an exact real, so the float cases of `abs(a - b) <= delta`, NaN and infinity, are not modelled.
- HwAddr.NibbleValue: only the ASCII hex digits are read. Python's `int(c, 16)` also accepts other Unicode decimal digits.
- HwModule.ConfigParser.Set: `configparser` folds option names to lower case, and the model keeps them as given. So `OptionStr` and `OptionNumber` find an option only under the exact spelling it was written with.
- HwModule.OptionNumber: `float()` also accepts underscores and non-ASCII digits; the model does not. The literal is read exactly, not rounded to a double first.
- OnMeshPrefix.ParseOnMeshPrefix: `\d`, `\w` and `\s` match ASCII only. Python's `re` also matches other Unicode digits and word characters.
- PyRepr.ReprRoundTrip: only ASCII is escaped. Python 3 also escapes non-printable non-ASCII characters.
- Config.Config.Str: the `src/` copy runs under Python 2. There `json.load` gives unicode strings, shown as `u'...'`, and a dict prints in hash order. Only the Python 3 text is modelled.
- Nodes.BaseNode.StoreData: for a watchable value, the contract states the new store, and that fields stay apart when no other field holds that watchable, but not the new view. The one place the source stores a watchable is the constructor, and `WpanNodes.Register` states the cells it creates.
- WpantundBase.ClearState: the held cells' new contents are stated only for a store whose fields share no watchable. If two cleared fields held the same watchable, it would be set twice, and that case is not stated. A node built by `NewWpanNode` satisfies the condition, and every store in the model keeps it.
- WpantundBase.Leave: held cells as for `ClearState`, under the same condition.
- WpantundBase.FormNetwork: held cells are stated only when fields share no watchable, as for `ClearState`.
- WpantundBase.JoinNetwork: held cells are stated only when fields share no watchable, as for `ClearState`.
- WpantundBase.StoreJoinCredentials: held cells are stated only when fields share no watchable, as for `ClearState`.
- WpantundBase.StoreRoleThenAttach: held cells are stated only when fields share no watchable, as for `ClearState`.
- WpantundBase.FormNetworkSrc: held cells are stated only when fields share no watchable, as for `ClearState`.
- WpantundBase.JoinNetworkSrc: held cells are stated only when fields share no watchable, as for `ClearState`.
- Nodes.BaseNode.StoreData: the `src/` copy tests `isinstance(value, str)`, so a Python 2 unicode value is not stripped. The model strips every string.
- File, USB, JSON and `configparser` reads are parameters: the content they produce is passed in. Clocks and random draws are parameters too.
- Python integers in the model are unbounded, as in Python. Only the OTNS event header fixes widths (64, 8 and 16 bits), and `ToBytes` raises when a field does not fit.

## Findings

| source | as written | input that shows it | evidently intended | confidence | as-written member | corrected member |
|---|---|---|---|---|---|---|
| silk/node/fifteen_four_dev_board.py:75 | `[.]+` matches only runs of literal dots | the line `State change: "associated" -> "uninitialized:fault"` does not match, so `running` stays true | any run of characters other than `"` | not executed | DevBoard.FaultLineMissedAsWritten | DevBoard.FaultLineStopsRunning |
| silk/hw/hw_resource.py:38-39 | `'{0} ... {2}'.format(model, name)` names a third argument | `str(HardwareNotFound(m, n))` raises IndexError for any `m`, `n` | `{1}` for the module's name | not executed | HwResource.NotFoundTextRaises | HwResource.NotFoundMessageText |
| silk/tools/wpan_table_parser.py:339 | the error message reads `'...'.result_text` | `ScanResult("garbage")` raises AttributeError | ValueError naming the row | not executed | ScanTable.ScanErrorAsWritten | ScanTable.ParseScanResult |
| silk/node/base_node.py:151-161 | the default of an absent field is converted too | `panid` with no PAN ID stored calls `int(-1, 16)` and raises TypeError | an absent field gives the default, -1 | not executed | Nodes.HexDefaultRaises | Nodes.GetDataDefaulted |
| src/node/fifteen_four_dev_board.py:470-471 | a static method that still takes `self` is called with the log alone | any `image_flash` call raises TypeError right after the erase | a plain method, or a static one without `self` | not executed | DevBoard.DevBoardNode.ImageFlashSrc | DevBoard.DevBoardNode.ImageFlashNrf52840 |
| src/node/wpantund_base.py:361 | `'-n'` is appended without a space | a route that is not stable has `-n` glued onto whichever word the command ends with: the priority, else the prefix length, else the prefix | ` -n` as its own word | not executed | WpantundBase.AddRouteSrcGluesFlag | WpantundBase.AddRouteReadsBack |
| src/node/wpantund_base.py:365-367 | `wpanctl` is called without its `timeout` argument | any `remove_route` call raises TypeError | a timeout, as `add_route` passes | not executed | WpantundBase.RemoveRouteSrc | WpantundBase.RemoveRoute |
| silk/node/base_node.py:216 | `self.ping6_get_results(self)` passes `self` twice | any `ping6_results_process` call raises TypeError after storing the counts | `self.ping6_get_results()` | not executed | Nodes.BaseNode.Ping6ResultsProcessAsWritten | Nodes.BaseNode.Ping6ResultsProcess |
| src/tools/wpan_table_parser.py:136-137 | the trailer rule drops the last interior line when it merely contains `]` | `[`, one line listing `IPv6Addrs:[fd74::1]`, then `]` with no final line break parses as no children | drop only a last line that is exactly `]`, as silk/tools/wpan_table_parser.py:139-140 does | not executed | WpanTableParserSrc.SrcDropsBracketedLast | WpanTableParser.ChildAddressTableRoundTrip |
