# gin-starter core, modelled in Dafny

This project models the sequential logic of gin-starter: a Gin web starter kit written in Go, which comes with a
code generator. It also proves properties of that logic.

**The sharded LRU + TTL cache (`pkg/gzcache`).** This is the centre of the model.
- A cache is a power-of-two number of shards. A key goes to a shard through the hash masked by `count - 1`.
- Each shard holds:
  - a key→node map;
  - a recency list, head first;
  - a counter;
  - a capacity.
- Operations: `Set`, `Get`, `Delete`, `Len`, `Keys`, `Purge` and the expiry sweep `cleanExpired`. Each is a method
  on the classes `Gzcache.Cache` and `CacheShard.Shard`.
- Each method is proved to follow a value-level specification in `CacheSpec`. In that specification a shard's
  contents are a sequence of entries in recency order, and an `onEvict` callback is a list of the calls made to it.
- The properties of the cache are lemmas about these specification functions.

**The smaller helpers:**
- `OrderlyMaps`: the ordered callback map.
- `Console`: the priority-ordered startup runner.
- `StringHelpers`: the string helpers of `pkg/gzutil`.
- `RandomHelpers`: the random-string and interval helpers.
- `ErrorCodes`: the error-code table.
- `GormSetup`: the database configuration defaults and DSN normalisation.

**The code generator (`cmdgen/genapi`)**, with file reads and writes removed. Its line editors take and return a
file's lines.
- `Gen`: trailing-line trimming and the file-name derivation at the head of `start`.
- `GenRouter`: the router file editors.
- `GenService`: the service/route scan and its duplicate detection, run on the matches of its patterns.
- `GenSwagger`: the OpenAPI type mapping.
- `GenDto`: struct rendering and field parsing.

Time is an explicit `now`. The seeded hash is a function fixed when a cache is built. Random draws are a supplied
sequence. A Go panic (a nil dereference, a slice past its end, `rand.Int63n` of a bound that is not positive) is
an explicit `Err` outcome or flag.

The cache is modelled as the code is written, including four behaviours its own comments do not lead one to
expect:
- `moveToHead` goes through `removeNode`, so the eviction callback also fires when a `Get` hit or a `Set` update
  moves a node that is not already the head.
- `Get` renews the deadline to `now + ttl` even for an entry set with `ttl <= 0`. Such an entry was meant never to
  expire, but after a read it expires.
- `New` computes `(capacity + count - 1) / count` on Go's 64-bit `int`. For a capacity within `count - 1` of
  the largest `int` the sum wraps around, every shard gets a negative capacity, and the cache is unbounded
  (`Gzcache.ShardCapacityWraps`).
- `removeLRU` deletes the wrong key (see Findings). Only this one is corrected in the model that `Set` uses.

## Model

| member | source | states |
|---|---|---|
| Gzcache.PowerOfTwoIff | pkg/gzcache/cache.go:82-84 | the bit test `n > 0 && n & (n-1) == 0` accepts exactly the positive powers of two |
| Gzcache.IsPowerOfTwo | pkg/gzcache/cache.go:82-84 | the bit test holds only for 1 and for positive even numbers; `PowerOfTwoIff` gives the exact set |
| Gzcache.MaskIsModulo | pkg/gzcache/cache.go:87-92 | with a power-of-two count, masking the hash with `count - 1` is the hash modulo `count`: the low bits pick the shard |
| Gzcache.TruncDiv | pkg/gzcache/cache.go:57 | Go's integer division truncates toward zero: it agrees with Euclidean division for non-negative dividends and is minus the quotient of the negated dividend otherwise |
| Gzcache.DefaultIsPowerOfTwo | pkg/gzcache/cache.go:45 | the default shard count 256 is a power of two |
| Gzcache.ShardCount | pkg/gzcache/cache.go:52-55 | `New` keeps a power-of-two shard count and falls back to 256 otherwise; either way the count is a power of two |
| Gzcache.ShardCapacityBounds | pkg/gzcache/cache.go:57 | where `capacity + count - 1` fits in Go's 64-bit `int`, the per-shard capacity is positive exactly when the requested capacity is, and bounded shards together hold at least the requested total and exceed it by less than one per shard |
| Gzcache.ShardCapacityWraps | pkg/gzcache/cache.go:57 | within `count - 1` of the largest `int`, the sum wraps around: a positive capacity such as `New(math.MaxInt64 - 100, 256, 0)` gives every shard a negative capacity, so the cache is unbounded (the test at line 121 never evicts) |
| Gzcache.ShardCapacity | pkg/gzcache/cache.go:57 | the per-shard capacity computed on wrapped 64-bit `int` with truncating division is itself a 64-bit `int` |
| Gzcache.Cache.constructor | pkg/gzcache/cache.go:51-79 | `New` builds `ShardCount(shardCount)` empty, distinct shards that share one callback holder. Each gets the per-shard capacity `ShardCapacity`, with its 64-bit wrap-around. No callback is installed, and the cleaner runs exactly when the interval is positive |
| Gzcache.Cache.ShardOfInRange | pkg/gzcache/cache.go:87-92 | every key is routed to an existing shard |
| Gzcache.Cache.ShardOf | pkg/gzcache/cache.go:87-92 | `getShard`'s masked hash never exceeds the mask |
| Gzcache.Cache.Set | pkg/gzcache/cache.go:95-126 | only the key's shard changes, and it becomes `AfterSet` of its old contents. The callback receives exactly that outcome's evictions when installed, and nothing otherwise. The cache invariant is kept |
| Gzcache.Cache.Get | pkg/gzcache/cache.go:129-151 | only the key's shard changes, as `AfterGet` says, and the value found is that outcome's; callbacks as for `Set` |
| Gzcache.Cache.Delete | pkg/gzcache/cache.go:154-164 | only the key's shard changes, as `AfterDelete` says; callbacks as for `Set` |
| Gzcache.Cache.SetOnEvict | pkg/gzcache/cache.go:179-181 | the callback is installed exactly when a non-nil one is given |
| Gzcache.Cache.Len | pkg/gzcache/cache.go:167-176 | the sum of the shard counters, clamped at zero. Under the invariant this is the number of entries in the cache |
| Gzcache.Cache.Keys | pkg/gzcache/cache.go:184-195 | the keys returned are, as a multiset, the union of every shard's map keys |
| Gzcache.Cache.KeysOnce | pkg/gzcache/cache.go:184-195 | each key is listed at most once: once exactly when its own shard holds it, never otherwise |
| Gzcache.Cache.Purge | pkg/gzcache/cache.go:198-207 | every shard is emptied, the invariant holds, and the callback is not called |
| Gzcache.Cache.CleanExpired | pkg/gzcache/cache.go:291-304 | every shard keeps exactly its live entries, in recency order. The callback is called exactly for the expired entries of all shards (as a multiset) when installed, and never otherwise |
| Gzcache.Cache.SweepShard | pkg/gzcache/cache.go:293-303 | the sweep of one shard: that shard keeps its live entries, the others are untouched, and the calls are that shard's expired entries |
| CacheShard.ConsistentMoveToFront | pkg/gzcache/cache.go:251-257 | moving a node to the head, with new contents, keeps the map, the list and the entries in step |
| CacheShard.ConsistentRemove | pkg/gzcache/cache.go:232-248 | unlinking a node and deleting its key keeps the map and the list in step and shrinks the map by one |
| CacheShard.ConsistentAdd | pkg/gzcache/cache.go:219-229 | linking a new key at the head keeps the map and the list in step and grows the map by one |
| CacheShard.Shard.constructor | pkg/gzcache/cache.go:65-72 | a new shard is empty, valid, with the given capacity and callback holder |
| CacheShard.Shard.ItemKeys | pkg/gzcache/cache.go:23-31 | the map holds exactly the keys of the listed entries |
| CacheShard.Shard.AddNode | pkg/gzcache/cache.go:219-229 | the key is linked in front of the old head |
| CacheShard.Shard.RemoveNode | pkg/gzcache/cache.go:232-248 | the node leaves the list, the rest keep their order, and the callback, if installed, is called once with its key and value |
| CacheShard.Shard.MoveToHead | pkg/gzcache/cache.go:251-257 | the node moves to the head, and the callback fires for it unless it already was the head |
| CacheShard.Shard.RemoveLRU | pkg/gzcache/cache.go:259-267 | corrected eviction: an empty shard is unchanged; otherwise exactly the tail entry leaves both the list and the map, and the callback gets exactly it |
| CacheShard.Shard.RemoveLRUAsWritten | pkg/gzcache/cache.go:260-267 | as written: one node panics. With two or more, the evicted key stays in the map while the new tail, still linked, leaves it, which breaks the shard invariant |
| CacheShard.Shard.Set | pkg/gzcache/cache.go:95-126 | the shard's entries and the callback calls are those of `AfterSet`; the invariant is kept and no key but the one set is added |
| CacheShard.Shard.Replace | pkg/gzcache/cache.go:105-108 | the existing-key branch of `Set` follows `AfterSet` and keeps the key set |
| CacheShard.Shard.Insert | pkg/gzcache/cache.go:109-125 | the new-key branch of `Set`, with eviction over capacity, follows `AfterSet` |
| CacheShard.Shard.Get | pkg/gzcache/cache.go:129-151 | the shard's entries, the value found and the callback calls are those of `AfterGet` |
| CacheShard.Shard.Drop | pkg/gzcache/cache.go:140-144 | the node at the given position leaves the list and the map, and the callback gets exactly it |
| CacheShard.Shard.Renew | pkg/gzcache/cache.go:147-150 | the hit's deadline becomes `now + ttl`, it moves to the head, and the callback fires as in `moveToHead` |
| CacheShard.Shard.Delete | pkg/gzcache/cache.go:154-164 | the shard follows `AfterDelete`; exactly the key leaves the map |
| CacheShard.Shard.Clear | pkg/gzcache/cache.go:199-205 | map, list and counter are reset and the callback is not called |
| CacheShard.Shard.AppendKeys | pkg/gzcache/cache.go:188-190 | the keys appended are the map's keys, each once |
| CacheShard.Shard.CleanExpired | pkg/gzcache/cache.go:295-301 | whatever order the map yields its keys in, exactly the live entries are left, in order. The callback calls are exactly the expired entries (as a multiset) when installed |
| CacheShard.Shard.Visit | pkg/gzcache/cache.go:296-300 | visiting a key removes its entry exactly when it is past a set deadline |
| CacheSpec.ExpiryFor | pkg/gzcache/cache.go:100-103 | a positive ttl gives the deadline `now + ttl`, strictly in the future; any other ttl gives no deadline |
| CacheSpec.AfterSet | pkg/gzcache/cache.go:95-126 | after `Set`, the key is at the head with the new value. The shard holds at least as many entries as before and at most one more, and nothing is reported as found |
| CacheSpec.AfterGet | pkg/gzcache/cache.go:129-151 | a hit leaves the key at the head holding the value returned, and keeps the size. A miss removes exactly the entries it reports |
| CacheSpec.AfterDelete | pkg/gzcache/cache.go:154-164 | `Delete` finds nothing, and every entry it removes is reported to the callback |
| CacheSpec.SetKeepsKeysUnique | pkg/gzcache/cache.go:95-126 | `Set` never duplicates a key, and afterwards the key is at the head with the new value and deadline |
| CacheSpec.SetExisting | pkg/gzcache/cache.go:105-108 | `Set` on a present key replaces value and deadline, moves it to the head, and keeps the stored ttl and the size. It calls the callback with the key and its new value unless the key was already the head |
| CacheSpec.SetNew | pkg/gzcache/cache.go:109-125 | `Set` on a new key puts it at the head with its own ttl. If that overflows a positive capacity, exactly the old tail is dropped and reported; otherwise nothing is |
| CacheSpec.SetWithinCapacity | pkg/gzcache/cache.go:121-124 | a shard within a positive capacity stays within it |
| CacheSpec.UnboundedSetKeepsAll | pkg/gzcache/cache.go:121-124 | with capacity <= 0, `Set` never drops a key |
| CacheSpec.GetAbsent | pkg/gzcache/cache.go:134-137 | `Get` of an absent key misses and changes nothing |
| CacheSpec.GetPresent | pkg/gzcache/cache.go:139-150 | `Get` of a present key: past its deadline it is removed, reported, and a miss. Otherwise it is a hit that moves to the head with its deadline renewed to `now + ttl` |
| CacheSpec.SlidingTtl | pkg/gzcache/cache.go:148 | after a hit, another `Get` no later than ttl after it hits again |
| CacheSpec.NeverExpiringEntryExpiresAfterRead | pkg/gzcache/cache.go:147-148 | an entry set with ttl <= 0, which the comment at line 94 documents as never expiring, gets a deadline on its first read, and any later `Get` misses and removes it |
| CacheSpec.DeleteRemovesKey | pkg/gzcache/cache.go:159-163 | `Delete` removes exactly the key, and reports one call exactly when the key was present |
| CacheSpec.LiveIsExactlyUnexpired | pkg/gzcache/cache.go:296 | the sweep keeps exactly the entries that are not past a set deadline, and reports all the others |
| CacheSpec.SweepKeepsNever | pkg/gzcache/cache.go:296 | entries without a deadline survive every sweep |
| CacheSpec.LiveUnique | pkg/gzcache/cache.go:295-301 | the sweep keeps keys unique and adds none |
| CacheSpec.SweptOne | pkg/gzcache/cache.go:296-300 | visiting one present key removes that entry exactly when it is expired |
| CacheSpec.SweptOneEvictions | pkg/gzcache/cache.go:296-300 | ... and reports it to the callback exactly then |
| CacheSpec.SweptInOrderIsSwept | pkg/gzcache/cache.go:295 | the order in which the map yields its keys does not matter: visiting them one by one is visiting their set at once, and the calls agree up to order |
| CacheSpec.SweepAll | pkg/gzcache/cache.go:291-304 | a sweep visiting every key leaves exactly the live entries and calls the callback for exactly the expired ones |
| OrderlyMaps.FirstOrderNames | pkg/gzutil/orderly_map.go:16-21 | the first-append order lists each appended name once, and those are exactly the keys of the map |
| OrderlyMaps.FirstOrderIsFifo | pkg/gzutil/orderly_map.go:16-19 | first in, first out: a name earlier in the order was first appended earlier |
| OrderlyMaps.LastValueIsLastAppend | pkg/gzutil/orderly_map.go:20 | a repeated name keeps the callback of its last append |
| OrderlyMaps.OrderlyMap.constructor | pkg/gzutil/orderly_map.go:9-14 | a new map is empty and valid |
| OrderlyMaps.OrderlyMap.Append | pkg/gzutil/orderly_map.go:16-21 | the callback is stored. A new name goes to the end of the list, and a known name leaves the list alone. The list stays the first-append order of all appends |
| OrderlyMaps.OrderlyMap.Foreach | pkg/gzutil/orderly_map.go:23-31 | one call per listed name, in list order, each to the name's current callback |
| OrderlyMaps.OrderlyMap.RunOrder | pkg/gzutil/orderly_map.go:23-31 | what `Foreach` runs: every name appended so far, exactly once, in order of first append |
| Console.Registry.constructor | gzconsole/command.go:17 | the task list starts empty |
| Console.Registry.Register | gzconsole/command.go:26-33 | exactly one task with the given priority is appended at the end |
| Console.Registry.RunStartupTasks | gzconsole/command.go:35-49 | the list is replaced by its stable sort. Tasks run in that order and the first failure stops the run and is returned. The result is nil exactly when every task succeeds |
| Console.SortStableSorted | gzconsole/command.go:37-39 | after sorting, priorities do not increase, and the tasks are a permutation of those registered |
| Console.SortStable | gzconsole/command.go:37-39 | `sort.SliceStable` by descending priority is a permutation of the registered tasks |
| Console.SortStableIsStable | gzconsole/command.go:37 | tasks of equal priority keep their registration order |
| Console.InsertStablePermutes | gzconsole/command.go:37 | one insertion step adds exactly the task inserted |
| Console.InsertStableSorted | gzconsole/command.go:37-39 | one insertion step keeps the order by priority |
| Console.InsertStableKeepsEqualOrder | gzconsole/command.go:37 | one insertion step puts the task first among its own priority and keeps the others' order |
| Console.SortedDescPairwise | gzconsole/command.go:37-39 | sorted neighbour by neighbour means sorted between any two positions |
| ErrorCodes.GetErrorMessage | pkg/gzerror/err_code.go:25-59 | an explicit message wins; otherwise a defined code gives its text and any other code gives the fallback |
| ErrorCodes.CodesAreTheTable | pkg/gzerror/err_code.go:31-50 | the message table holds exactly the defined codes |
| ErrorCodes.CodesDistinct | pkg/gzerror/err_code.go:5-22 | the eighteen codes are pairwise distinct |
| ErrorCodes.DefaultMessageNonEmpty | pkg/gzerror/err_code.go:52-58 | without a message the result is never empty, and an unknown code's text differs from that of code 500 |
| RandomHelpers.RandString | pkg/gzutil/tool.go:37-53 | a negative `n` panics in `make`. Otherwise, with enough draws, the string has exactly `n` characters, and the j-th accepted 6-bit index names the letter at position n-1-j. Indices 62 and 63 fill nothing |
| RandomHelpers.FillLetters | pkg/gzutil/tool.go:40-50 | the fill loop, from the last byte down, succeeds exactly when the draws supply `n` accepted indices, and places them as `RandString` says |
| RandomHelpers.RandStringAlphabet | pkg/gzutil/tool.go:44-47 | every character is one of the 62 letters and digits |
| RandomHelpers.DrawIndicesCount | pkg/gzutil/tool.go:40-43 | each 63-bit draw supplies exactly ten indices, so k draws fill at most 10k positions |
| RandomHelpers.Indices | pkg/gzutil/tool.go:44-48 | the indices of a draw are 6-bit values, lowest bits first |
| RandomHelpers.Accepted | pkg/gzutil/tool.go:44 | only indices that name a letter are kept |
| RandomHelpers.Wrap64 | pkg/gzutil/tool.go:68 | Go's `int64` arithmetic wraps around: in-range values are kept, values just past the maximum become negative |
| RandomHelpers.Bounds | pkg/gzutil/tool.go:60-66 | a negative `min` is raised to 0 and reversed bounds are swapped, so the bounds come out ordered |
| RandomHelpers.Interval64 | pkg/gzutil/tool.go:55-69 | `min` when the bounds agree; otherwise a value in `[lo, hi)` of the adjusted bounds, or a panic |
| RandomHelpers.Interval64Panics | pkg/gzutil/tool.go:60-68 | it panics exactly when the adjusted bounds coincide or their distance overflows, e.g. for a negative `min` and `max` 0 |
| RandomHelpers.Interval64InRange | pkg/gzutil/tool.go:55-69 | non-negative distinct bounds always give a value between them, the larger excluded |
| GormSetup.DbConfig.constructor | modules/dbmodule/gorm.go:22 | a configuration holds the settings given |
| GormSetup.DbConfig.ApplyDefaults | modules/dbmodule/gorm.go:23-34 | log level, idle connections, connections and slow threshold left at 0 become 3, 10, 200 and 200; other values and the other settings are kept |
| GormSetup.DbConfig.NewGormDB | modules/dbmodule/gorm.go:22-76 | the defaults are applied and the DSN is given a timeout. The dialector is picked from the driver name, or an error names the unsupported driver. The log mode and pool sizes come from the defaulted settings |
| GormSetup.Defaulted | modules/dbmodule/gorm.go:23-34 | a setting left at 0 takes its default, any other value is kept |
| GormSetup.DialectorNamed | modules/dbmodule/gorm.go:39-63 | a dialector exists exactly for mysql, sqlite, postgresql and sqlserver |
| GormSetup.DialectorByPrefix | modules/dbmodule/gorm.go:37-39 | only the text before the first "_" names the driver |
| GormSetup.DialectorIgnoresCase | modules/dbmodule/gorm.go:39 | the driver name's case does not matter |
| GormSetup.GetLogMode | modules/dbmodule/gorm.go:82-91 | level 1 logs errors, 2 warnings, any other level everything |
| GormSetup.EnsureTimeout | modules/dbmodule/gorm.go:127-137 | the result always carries a `timeout=` parameter. A DSN that already names a timeout is returned unchanged. Any other DSN gets `timeout=<default>` appended, after `&` when it already has a query string (`?`) and after `?` when it has none |
| GormSetup.EnsureTimeoutKeepsDsn | modules/dbmodule/gorm.go:127-137 | a DSN with a timeout is kept, the DSN is always a prefix of the result, normalising twice is normalising once, and a DSN given a timeout always ends up with a query string |
| StringHelpers.SeparateCamel | pkg/gzutil/func.go:129-139 | the builder loop produces the camel-separated text `Camel` |
| StringHelpers.CamelLength | pkg/gzutil/func.go:129-134 | one separator per capital after the first character, and one output character per input character |
| StringHelpers.CamelLowerCase | pkg/gzutil/func.go:136 | with a separator free of capitals, the output has none |
| StringHelpers.CamelKeepsLowerCase | pkg/gzutil/func.go:129-139 | a name of lower-case letters and digits comes out unchanged |
| StringHelpers.SetBit5 | pkg/gzutil/func.go:136 | `r \| ' '` lower-cases capitals, keeps lower-case letters and digits, and never yields a capital |
| StringHelpers.UcFirst | pkg/gzutil/func.go:142-147 | same length; the first character upper-cased and the rest unchanged; "" stays "" |
| StringHelpers.LcFirst | pkg/gzutil/func.go:150-155 | same length; the first character lower-cased and the rest unchanged; "" stays "" |
| StringHelpers.FirstCaseRoundTrip | pkg/gzutil/func.go:142-155 | each of `UcFirst` and `LcFirst` is idempotent and undoes the other on the first letter |
| StringHelpers.ConvertRestfulURLToUri | pkg/gzutil/func.go:177-190 | a last "/"-part starting with ':' yields that part without ':' as the parameter; otherwise the URL and ""; a slash-free `:param` gives ("", `param`) |
| StringHelpers.ConvertRestfulURLRoundTrip | pkg/gzutil/func.go:178-186 | for a URL with a slash ending in a `:param` part, path + "/:" + param gives back the URL |
| StringHelpers.InArray | pkg/gzutil/func.go:311-318 | true exactly when some element equals the value |
| StringHelpers.Ternary | pkg/gzutil/func.go:365-370 | the first value when the condition holds, else the second |
| StringHelpers.PlatformIgnoresCase | pkg/gzutil/func.go:321-362 | platform and browser do not depend on case, and an Android agent is Android even when it names Linux |
| StringHelpers.GetPlatform | pkg/gzutil/func.go:321-341 | one of Android, iOS, Windows, MacOS, Linux or Unknown; Android exactly when the lower-cased agent names "android" |
| StringHelpers.GetBrowser | pkg/gzutil/func.go:344-362 | one of the six browsers or Unknown; Edge exactly when the lower-cased agent names "edg", and Chrome exactly when it names "chrome" but not "edg" |
| StringHelpers.EdgeIsNotChrome | pkg/gzutil/func.go:344-362 | an agent naming "edg" is Edge, never Chrome |
| StringHelpers.JoinSplit | pkg/gzutil/func.go:177-190 | splitting at a separator and joining again gives back the text |
| StringHelpers.TrimSpace | cmdgen/genapi/gendto.go:24 | Go's `strings.TrimSpace`, as called at this line: the result is empty exactly for an all-white-space text, and otherwise neither starts nor ends in white space |
| StringHelpers.TrimSpaceInfix | cmdgen/genapi/gendto.go:24 | the result is an infix `s[a..b]` of the input with only white space before `a` and after `b` |
| Gen.TrimTrailingEmptyLines | cmdgen/genapi/gen.go:265-271 | the loop yields `TrimEnd`: a prefix of the input that is empty or ends in a non-blank line, having dropped only blank lines |
| Gen.TrimEndUnique | cmdgen/genapi/gen.go:265-271 | that prefix is the only one with these properties |
| Gen.TrimEndIdempotent | cmdgen/genapi/gen.go:265-271 | trimming twice is trimming once |
| Gen.TrimEndDropsBlank | cmdgen/genapi/gen.go:267-268 | a blank last line is trimmed away |
| Gen.Index | cmdgen/genapi/gen.go:122 | -1 exactly when the keyword does not occur, else its first position |
| Gen.TrimBeforeKeyword | cmdgen/genapi/gen.go:121-127 | "" when the keyword is absent. A panic exactly when the keyword's first occurrence ends the path. Otherwise the suffix starting one past the end of that first occurrence |
| Gen.TrimBeforeKeywordSplits | cmdgen/genapi/gen.go:121-127 | a path made of a keyword-free part, the keyword, a separator and a rest gives back the rest |
| Gen.Ext | cmdgen/genapi/gen.go:146 | the extension is a suffix of the path that starts with '.' and holds no other '.' or '/' |
| Gen.Base | cmdgen/genapi/gen.go:146 | the base name is never empty and holds no '/' except for the root |
| Gen.FilePrefixDropsExtension | cmdgen/genapi/gen.go:146 | a file `dir/name.ext` has the prefix name `name` |
| Gen.FilePrefix | cmdgen/genapi/gen.go:146 | `nowFilePrefixName` is never empty and holds no `/` unless it is the root |
| Gen.FieldsOfName | cmdgen/genapi/gen.go:149-151 | the fields are non-empty, free of , ; \| : _ -, and together spell the name without its separators |
| Gen.FieldsOfPlainName | cmdgen/genapi/gen.go:149-151 | a name without separators is its own single field |
| Gen.FinalNameIgnoringCase | cmdgen/genapi/gen.go:153-158 | up to case, a name of several fields becomes the name with its separators removed (`user_info` gives `UserInfo`) |
| Gen.FinalName | cmdgen/genapi/gen.go:153-161 | with at most one field, `fileFinalName` is exactly the prefix with its first letter upper-cased |
| Gen.Camelize | cmdgen/genapi/gen.go:153-158 | reference definition of a camel-cased name: separators dropped, the character after each separator (and the first) upper-cased, every other kept; as long as the name without separators |
| Gen.CamelizePieces | cmdgen/genapi/gen.go:153-158 | joining the fields with their first letters upper-cased equals camelizing the name |
| Gen.FinalNameCamelizes | cmdgen/genapi/gen.go:153-158 | a name of several fields becomes exactly its camelized form, of the length of the name without separators |
| Gen.ModuleOf | cmdgen/genapi/gen.go:133-142 | a path of 2 or 3 "/"-parts has a module (free of '/'); any other is skipped |
| Gen.ModuleOfTwoParts | cmdgen/genapi/gen.go:135-136 | `dir/file` lies in the root module "" |
| Gen.ModuleOfThreeParts | cmdgen/genapi/gen.go:137-138 | `dir/module/file` lies in `module` |
| Gen.NewFilePath | cmdgen/genapi/gen.go:132 | a relative path is used as given. The path fails exactly when trimming it at the package name panics, which also happens for a relative path, because both arguments of `Ternary` are evaluated |
| Gen.FindModule | cmdgen/genapi/gen.go:132-142 | the module found for a file is `ModuleFor`: a panic, a skip, or the module |
| Gen.DeriveNames | cmdgen/genapi/gen.go:146-161 | the statements compute `NamesOf`: the prefix, the prefix plus ".go", the fields joined by "/", and the final name |
| Gen.UpperCamel | cmdgen/genapi/gen.go:154-158 | the builder loop concatenates `UcFirst` of every field |
| Gen.RelativePathCanPanic | cmdgen/genapi/gen.go:132 | a relative path whose first "api" ends it makes `start` panic although the trimmed path is not used |
| Gen.Generator.constructor | cmdgen/genapi/gen.go:129 | the names start empty |
| Gen.Generator.Start | cmdgen/genapi/gen.go:129-161 | a panic or a skipped file leaves the generator unchanged. Otherwise the module is set, and unless trimming the output directory panics, the four names become `NamesOf(filename)` |
| Gen.Generator.SetNames | cmdgen/genapi/gen.go:144-161 | trimming the output directory panics exactly as `TrimBeforeKeyword` says; otherwise the names are `NamesOf(filename)` |
| Gen.Generator.SetFields | cmdgen/genapi/gen.go:147-161 | the four name fields are set and the module is kept |
| GenRouter.RemoveExtraBlankLines | cmdgen/genapi/genrouter.go:518-534 | the loop keeps exactly the first line of every run of blank lines (`Collapse`) |
| GenRouter.CollapseNoDoubleBlank | cmdgen/genapi/genrouter.go:518-534 | the result never holds two blank lines in a row |
| GenRouter.CollapseKeepsNonBlank | cmdgen/genapi/genrouter.go:522-531 | every non-blank line is kept, in order |
| GenRouter.CollapseSubseq | cmdgen/genapi/genrouter.go:522-531 | the result is the input with some lines left out |
| GenRouter.CollapseKeepsSingleBlanks | cmdgen/genapi/genrouter.go:518-534 | lines without two blanks in a row are left as they are |
| GenRouter.CollapseIdempotent | cmdgen/genapi/genrouter.go:518-534 | collapsing twice is collapsing once |
| GenRouter.CountChar | cmdgen/genapi/genrouter.go:493-494 | a count never exceeds the length and is zero exactly when the character is absent |
| GenRouter.RemoveRouterFuncFromFile | cmdgen/genapi/genrouter.go:474-516 | the lines outside the function, chosen by the brace-depth scan, with runs of blank lines collapsed |
| GenRouter.StripAppend | cmdgen/genapi/genrouter.go:485-511 | the scan reads a file piece by piece: what the second piece keeps depends only on where the first left off |
| GenRouter.StripDropsEveryOpening | cmdgen/genapi/genrouter.go:489-497 | no kept line opens the function |
| GenRouter.StripSubseq | cmdgen/genapi/genrouter.go:485-511 | the kept lines are the input with some left out |
| GenRouter.StripWithoutFunction | cmdgen/genapi/genrouter.go:485-511 | a file without the function keeps every line |
| GenRouter.InsideBody | cmdgen/genapi/genrouter.go:500-507 | inside the function, lines after each of which the running depth stays positive are all dropped, and the depth grows by their net braces |
| GenRouter.FunctionRemoved | cmdgen/genapi/genrouter.go:489-508 | a function is removed whole: its first line, every body line after which the running depth is still positive, whatever braces the body holds, and the line that takes the depth to zero or below. The lines after it are read from the depth it leaves, and when its braces balance, as if it had never been there |
| GenRouter.FunctionWithBlockRemoved | cmdgen/genapi/genrouter.go:489-508 | a router function whose body is a `{ ... }` group block of brace-free calls is removed whole, and the rest of the file is read as if it had never been there |
| GenRouter.OneLineFunctionTakesNextLine | cmdgen/genapi/genrouter.go:489-507 | a function written on one line leaves the scanner inside it, so the next line is dropped too |
| GenRouter.CloseFrom | cmdgen/genapi/genrouter.go:119-121 | the first `}` line at or after a position, or the end of the file |
| GenRouter.CleanRouterBlock | cmdgen/genapi/genrouter.go:86-150 | the loop writes `CleanFrom(lines, f, 0, false)`. A recognised block keeps its opening lines and `}` around the body lines that do not call the removed function, and vanishes when none are left. Other lines are copied |
| GenRouter.CleanLines | cmdgen/genapi/genrouter.go:98-147 | the line loop writes exactly the output its progress invariant promises |
| GenRouter.CleanStep | cmdgen/genapi/genrouter.go:98-147 | one pass of the loop moves forward and keeps the invariant, inside or outside a block |
| GenRouter.ReadGroupHeader | cmdgen/genapi/genrouter.go:102-117 | a block is entered exactly when header, `Use` line and `{` follow one another, and `i` stops at the last line read |
| GenRouter.EmitBlock | cmdgen/genapi/genrouter.go:120-139 | closing a block writes its kept body between its opening lines and `}`, or nothing |
| GenRouter.FilterBody | cmdgen/genapi/genrouter.go:125-130 | the body lines that do not call the removed function, in order |
| GenRouter.FilterCallsDropsCalls | cmdgen/genapi/genrouter.go:125-130 | the filter removes every call and nothing else, in order |
| GenRouter.BlockWithoutCallsKept | cmdgen/genapi/genrouter.go:119-137 | a block without calls to the removed function is written unchanged |
| GenRouter.BlockOfCallsDropped | cmdgen/genapi/genrouter.go:132-133 | a block of nothing but such calls disappears, header, `Use` line and braces included |
| GenRouter.CleanSubseq | cmdgen/genapi/genrouter.go:86-150 | the output is the input with some lines left out |
| GenRouter.CleanWithoutBlocks | cmdgen/genapi/genrouter.go:144-146 | corrected reading: a file without a recognised block is written back unchanged |
| GenRouter.UseLineDroppedAsWritten | cmdgen/genapi/genrouter.go:106-116 | as written: a header followed by a `Use` line and no `{` opens no block, yet the `Use` line is lost |
| GenRouter.GroupNameInjective | cmdgen/genapi/genrouter.go:409-412 | different groups never share a variable name |
| GenRouter.LastIndex | cmdgen/genapi/genrouter.go:423-439 | the last line satisfying a test, or -1 |
| GenRouter.ScanEnterMeaning | cmdgen/genapi/genrouter.go:423-439 | the scan loop finds the last `return r`, whether the router is already called, the last declaration of the group, and the `}` closing it |
| GenRouter.ScanEnterGo | cmdgen/genapi/genrouter.go:414-439 | the loop copies the lines and its variables end as the scan says |
| GenRouter.UpdateEnterGo | cmdgen/genapi/genrouter.go:404-466 | the edit made to an existing entry file is `EnterEdit` |
| GenRouter.EnterEditNewGroup | cmdgen/genapi/genrouter.go:441-454 | an undeclared group gets a new block before the last `return r`, and the file is written even when there is no `return r` |
| GenRouter.EnterEditExistingGroup | cmdgen/genapi/genrouter.go:428-459 | in a declared group, a router already called anywhere means nothing is written; otherwise the call goes just before the group's closing `}` |
| GenRouter.EnterEditKeepsLines | cmdgen/genapi/genrouter.go:441-459 | every line of the file is written back, in order, around the inserted ones |
| GenRouter.NewGroupSettles | cmdgen/genapi/genrouter.go:441-454 | after a new block is written, a second run changes nothing |
| GenRouter.CallSettles | cmdgen/genapi/genrouter.go:455-459 | after the call is written, a second run changes nothing |
| GenRouter.EnterEditIdempotent | cmdgen/genapi/genrouter.go:351-472 | registering a router twice is registering it once, and the second run writes nothing |
| GenService.SummaryOf | cmdgen/genapi/genservice.go:22-28 | a service without `@Summary` is summarised by its name |
| GenService.MatchRoutesService | cmdgen/genapi/genservice.go:11-94 | the nested loops return the error of the first repeated key or the services, as `MatchResult` says |
| GenService.MatchRoutes | cmdgen/genapi/genservice.go:32-83 | the line loop of one service follows `ScanBlock` from the file-wide route keys |
| GenService.NewRoute | cmdgen/genapi/genservice.go:49-67 | the route of a matched line gets its name from the path, `RustFulKey` from `ConvertRestfulURLToUri`, and the carried or default summary |
| GenService.MatchResultMeaning | cmdgen/genapi/genservice.go:11-94 | the scan fails exactly when a route key, function key or `name+group` key repeats anywhere in the file. Otherwise it yields one service per match, in file order |
| GenService.ScanServicesOkIff | cmdgen/genapi/genservice.go:69-89 | the key maps span the whole file: the scan gets through exactly when the three key families have no repeats, and then holds exactly their keys |
| GenService.ScanBlockOkIff | cmdgen/genapi/genservice.go:69-79 | one service's lines get through exactly when their route and function keys are new, and the key sets grow by exactly those keys |
| GenService.ScanBlockRoutes | cmdgen/genapi/genservice.go:35-83 | the routes built are one per route line, each summarised by the last `@Summary` pending before it |
| GenService.BlockStepRoutes | cmdgen/genapi/genservice.go:41-81 | a route line adds its route and clears the carried summary; a `@Summary` line sets it |
| GenService.PendingStep | cmdgen/genapi/genservice.go:41-81 | the summary pending after a line: cleared by a route, set by a matched `@Summary`, else unchanged |
| GenService.ServiceStepKeys | cmdgen/genapi/genservice.go:20-90 | one service gets through exactly when its route, function and `name+group` keys are new, and is then appended |
| GenService.ScanServicesInOrder | cmdgen/genapi/genservice.go:90 | services appear in file order |
| GenService.ScanServicesStopped | cmdgen/genapi/genservice.go:70-87 | the first error ends the scan and is its result |
| GenService.ErrorSticks | cmdgen/genapi/genservice.go:70-87 | once the service loop has failed it stays failed |
| GenService.BlockStopped | cmdgen/genapi/genservice.go:70-77 | an error at a line is the result of the line loop |
| GenService.BlockErrorSticks | cmdgen/genapi/genservice.go:70-77 | once the line loop has failed it stays failed |
| GenService.RouteNameWithParam | cmdgen/genapi/genservice.go:49-54 | a trailing `:param` part is left out of the name and becomes the `RustFulKey` |
| GenService.RouteNameExample | cmdgen/genapi/genservice.go:49-54 | `/user/:id` is named `User` and keyed by `id` |
| GenService.RouteNameTwoParts | cmdgen/genapi/genservice.go:50-54 | `/x/y` is named `UcFirst(x) + UcFirst(y)` |
| GenService.RouteNameOnePart | cmdgen/genapi/genservice.go:50-54 | `/y` is named `UcFirst(y)` |
| GenService.FuncKeysCollide | cmdgen/genapi/genservice.go:74-77 | keys are joined without a separator: service `User` with `/info/get` and service `UserInfo` with `/get` are reported as a duplicate function |
| GenService.CollidingNames | cmdgen/genapi/genservice.go:74 | the two function keys of that example are equal |
| GenService.DuplicateFuncKey | cmdgen/genapi/genservice.go:74-77 | a file whose two function keys are equal is refused |
| GenService.FreshAppend | cmdgen/genapi/genservice.go:12-14 | keys checked in two stretches are fresh exactly when each stretch is, the second against the first |
| GenSwagger.TypeToOpenAPICases | cmdgen/genapi/genswagger.go:161-177 | one of six types: integer exactly for int and int64, number exactly for float64 and float32, boolean exactly for bool, string exactly for string, array exactly for "[]" types, object otherwise |
| GenSwagger.TypeToOpenAPI | cmdgen/genapi/genswagger.go:161-177 | the OpenAPI type is one of integer, number, boolean, string, array and object |
| GenSwagger.ExprToType | cmdgen/genapi/genswagger.go:98-111 | a type name starts with one "[]" per array level of the expression, looking through pointers |
| GenSwagger.OtherIntegersAreObjects | cmdgen/genapi/genswagger.go:171-175 | int32, int8, uint and byte are objects |
| GenSwagger.ExprToTypeShape | cmdgen/genapi/genswagger.go:98-111 | a type name is one "[]" per array level, then the base name: pointers vanish, a selector keeps its selected name, anything else is "object" |
| GenSwagger.PointerTransparent | cmdgen/genapi/genswagger.go:104-105 | pointers change neither the name nor the OpenAPI type |
| GenSwagger.ArraysAreArrays | cmdgen/genapi/genswagger.go:161-177 | an array expression, through any pointers, is an OpenAPI array |
| GenSwagger.CompositionExamples | cmdgen/genapi/genswagger.go:161-177 | `*int` is integer, `**float64` number, `time.Time` and other expressions object |
| GenSwagger.SelectorDropsPackage | cmdgen/genapi/genswagger.go:106-107 | a selector maps like its selected name alone |
| GenSwagger.Base | cmdgen/genapi/genswagger.go:98-111 | the base of an expression is neither an array nor a pointer |
| GenDto.Span | cmdgen/genapi/gendto.go:46 | a greedy repetition takes the longest prefix of its class |
| GenDto.Strip | cmdgen/genapi/gendto.go:46 | the text between `^\s*` and `\s*$` neither starts nor ends in white space |
| GenDto.ParseShape | cmdgen/genapi/gendto.go:45-70 | a field read has a name of word characters (possibly empty), a non-empty type of type characters, a tag without back quotes, and never a comment; it is refused exactly when neither reading of the pattern fits |
| GenDto.ParseDtoFieldDeclaration | cmdgen/genapi/gendto.go:45-70 | a field read has a type and never a comment (the pattern has no comment group); a refused declaration gives the error naming it |
| GenDto.TypeAndTagShape | cmdgen/genapi/gendto.go:46-62 | the type read is a run of type characters and the tag holds no back quote |
| GenDto.ParseFields | cmdgen/genapi/gendto.go:22-34 | the line loop keeps the fields of the lines that parse, in order (`FieldsOf`) |
| GenDto.MatchDto | cmdgen/genapi/gendto.go:13-43 | one entry per struct match, in order, each the match's name and fields |
| GenDto.FieldsOfSkipped | cmdgen/genapi/gendto.go:24-31 | blank and unparseable lines are skipped without a trace |
| GenDto.FieldsOfShape | cmdgen/genapi/gendto.go:54-67 | every field read has a type and no comment |
| GenDto.FieldsOfAppend | cmdgen/genapi/gendto.go:23-34 | lines side by side give their fields side by side |
| GenDto.FormatStruct | cmdgen/genapi/gendto.go:87-101 | the loop writes `StructText`: the header, one field line per field in order, then "}\n\n" |
| GenDto.StructTextShape | cmdgen/genapi/gendto.go:88-98 | the text starts with `type <Name> struct {` and ends with "}\n\n", with the field block between |
| GenDto.LineShape | cmdgen/genapi/gendto.go:89-96 | a field line is a tab, the name, a space, the type, and the tag suffix |
| GenDto.KeptFieldLine | cmdgen/genapi/gendto.go:24-33 | a line written for a well-formed field is read back as exactly that field |
| GenDto.NamedRoundTrip | cmdgen/genapi/gendto.go:45-70 | a named field line, trimmed, parses back to its field |
| GenDto.UnnamedRoundTrip | cmdgen/genapi/gendto.go:45-70 | an unnamed field line parses back to its field with an empty name |
| GenDto.TypeAndTagRoundTrip | cmdgen/genapi/gendto.go:90-93 | the tag suffix " `tag`", written exactly when the tag is non-empty, reads back as the tag |
| GenDto.FieldsOfFieldLines | cmdgen/genapi/gendto.go:22-34 | the lines of well-formed fields give back the fields |
| GenDto.StructRoundTrip | cmdgen/genapi/gendto.go:87-101 | reading the block `formatStruct` writes between the braces gives back the struct |

## Left out

- The cache's recency list is a sequence of keys (`order`) beside the key→entry map. It is not a doubly-linked
  list of nodes with `prev`/`next` pointers. The pointer surgery of `addNode`/`removeNode` is stated at this level
  (the key's position removed or put first), and aliasing between nodes is not modelled.
- `atomic.Int64` counters are plain integers. A counter is tied to the map's size by the shard invariant.
- Concurrency in the cache is not modelled: the mutexes, the atomic flags, the cleaner goroutine and its ticker,
  and `Close` (pkg/gzcache/cache.go:209-214, 270-288). `cleanExpired` is a method taking `now`.
- The seeded `maphash` is a function fixed at construction, and `time.Now()` is an explicit `now`.
- Gzcache.Cache.Keys: states the keys as a multiset, because Go's map iteration order is unspecified.
- Gzcache.Cache.CleanExpired: the callback calls are stated up to order, for the same reason.
- OrderlyMaps.OrderlyMap.Foreach: a nil `*OrderlyMap` receiver (pkg/gzutil/orderly_map.go:24) is not modelled;
  a Dafny object reference is never null here. Callbacks are opaque values, and calling one is recording it.
- Console.Registry.RunStartupTasks: a task's command is reduced to the outcome of running it, and cobra's
  `AddCommand` is left out.
- RandomHelpers.RandString: the 63-bit draws of `src.Int63()` are a supplied sequence. Running out of draws
  gives the error `DrawsExhausted`, which the Go code never meets. The panic of `make` for a negative `n` is the
  error `MakeSlicePanic`.
- RandomHelpers.Interval64: `rand.Int63n` is a supplied function assumed to return a value below its bound.
  Its panic is an `Err` result.
- GormSetup.DbConfig.NewGormDB: opening the database (`gorm.Open`), setting up the pool on the live connection, and
  the logger's writer (`getLogWriter`) are left out. The dialector is an enumeration, and the configuration
  entries are what the call would receive.
- StringHelpers: `strings.ToLower`/`ToUpper`, `TrimSpace` and the `\s`/`\w` classes are modelled for ASCII only,
  on `seq<char>`. Unicode case folding and white space are left out.
- StringHelpers.PlatformIgnoresCase: the order of the tests in `GetPlatform`/`GetBrowser` is stated by those
  functions themselves. The lemmas cover case-insensitivity, Android before Linux and Edge before Chrome.
- Gen.Generator.Start: only the head of `start` (cmdgen/genapi/gen.go:132-161) is modelled. `basePackagePath`
  (`filepath.Join`) is not modelled. Reading the API file, the generation steps and logging are left out.
  `filepath.Ext`/`Base`/`IsAbs` are modelled for Unix paths.
- GenService.MatchRoutesService: the service and route regular expressions are not modelled. Their matches are
  inputs: the service matches as tuples, and the route and `@Summary` line patterns as functions from a line to
  its captures. The error messages are not compared, only where the scan stops.
- GenDto.MatchDto: the struct pattern's matches are inputs. The field pattern of `parseDtoFieldDeclaration` is
  modelled as its greedy reading.
- `writeToTypeFile` (cmdgen/genapi/gendto.go:104-138) is not modelled. It is file I/O around a regex replacement
  and `go/format`.
- `GenDto` (the file write loop) is not modelled either.
- GenRouter.UpdateEnterGo: creating a missing entry file from its template (cmdgen/genapi/genrouter.go:365-402)
  and the write itself are left out. The edit is returned as whether the file is written and its lines.
- `removeRouterFuncFromFile` and `cleanRouterBlock` are modelled on the file's lines, without their reads and
  writes.
- `parseStructs` and the rest of the Swagger generation (`go/parser`, templates) are not part of this model.
  Only `exprToType` over a datatype of the expression shapes it tells apart, and `typeToOpenAPI`, are.

## Findings

| source | as written | input that shows it | evidently intended | confidence | as-written member | corrected member |
|---|---|---|---|---|---|---|
| pkg/gzcache/cache.go:264-265 | `removeLRU` unlinks the tail, then deletes the key of `s.tail`, which by then is the new tail | a shard of capacity 1 holding `a`, then `Set("b")`: `a` stays in the map unlinked, and `b` stays linked but leaves the map. With a single linked node, `s.tail` is nil and the call panics | the evicted node's own key leaves the map (comment at line 259) | not executed | CacheShard.Shard.RemoveLRUAsWritten | CacheShard.Shard.RemoveLRU |
| cmdgen/genapi/genrouter.go:106-116 | after a group header followed by a `.Use(` line, `i` is advanced past the `Use` line even when no `{` follows, and that line is never written | lines `g := r.Group(` and `g.Use(` give back only `g := r.Group(` | lines outside a recognised block are copied unchanged | not executed | GenRouter.UseLineDroppedAsWritten | GenRouter.CleanWithoutBlocks |
