# AssetTrack and InsureQuote core, in Dafny

This project models the behavioural core of the two demo applications in
the minty repository and proves what that core promises.

- `models.dfy`: the AssetTrack records. These are `Asset`, `MaintenanceRecord`, `AuditEntry`,
  `AssetFilter`, `AssetStats` and the store's not-found error, as datatypes.
- `store.dfy`: the in-memory store as a class `MemoryStore`.
  - Its fields are the asset table, the per-asset maintenance and audit lists, and the shared
    `nextID` counter. Every method is proved against the state it leaves.
  - The invariant `Valid()` says three things. Every asset is stored under its own ID. Every
    record sits in its own asset's list. Every generated ID was printed from a counter value
    already issued, and no two records share an ID.
  - Go's unordered map iteration becomes a loop that takes an arbitrary remaining key.
- `api.dfy`: the REST handlers as methods of a `Handler` over the store.
  - Each one returns the status code and the `{data, error, meta}` envelope it writes.
  - A request body reaches a handler already decoded. `None` stands for a body the JSON
    decoder rejects.
- `middleware.dfy`: the middleware decision logic.
  - The CORS allow-check and preflight, and the RealIP header precedence.
  - The status-recording response writer, SecureHeaders, ContentType, and GetRequestID over
    a context map.
- `money.dfy`: InsureQuote's `formatMoney`.
  - It is proved against `MoneyText`, a recursive definition of three-digit grouping.
  - The proved properties of the output: the prefix, the comma layout, the leading group,
    no comma at either edge, and the round trip back to the digits.
- `components.dfy`: the choice logic of the UI helpers, over a small markup tree of tag,
  attributes and children.
  - The helpers covered are `icon`, `statusBadge`, `formField`, `selectField`,
    `maintenanceTable` and `maintenanceSummary`.
- `http.dfy`: the `net/http` status codes shared by the handlers and the middleware.
- `text.dfy`: the printers the code relies on.
  - `%d`, `%03d` and their inverse parse, which prove the printed IDs injective.
  - ASCII lower-casing and substring search.

## Model

| member | source | states |
|---|---|---|
| Text.FormatSerialParses | examples/internal/store/memory.go:130 | an ID printed as prefix + "%03d" of n starts with the prefix, has at least three digits after it, and those digits read back as n |
| Text.FormatSerialInjective | examples/internal/store/memory.go:129-130 | two IDs printed under one prefix are equal only when their counter values are equal |
| Text.ParseDecimalDigits | examples/internal/ui/components.go:498 | the `%d` digits of n read back as n |
| Text.DecimalDigitsInjective | examples/internal/ui/components.go:498 | distinct naturals print differently under `%d` |
| Text.ParsePadZeros | examples/internal/store/memory.go:130 | zero padding to a width keeps the digits' value |
| Text.PadZerosShape | examples/internal/store/memory.go:130 | padding reaches the width, keeps the digits as suffix and puts only zeros in front |
| Text.FormatInt | examples/insurance-quote/internal/ui/handlers.go:38 | `%d` of a negative number is "-" followed by the digits of its absolute value; otherwise just the digits |
| Text.ToLowerIdempotent | examples/internal/store/memory.go:103 | lower-casing twice gives what lower-casing once gives; the result differs from the input only in letter case and has no upper-case ASCII letter left |
| Text.ToLowerIgnoresCase | examples/internal/store/memory.go:103 | two strings that differ only in the case of ASCII letters lower-case to the same string |
| Text.ContainsAt | examples/internal/store/memory.go:103 | `strings.Contains` holds exactly when the needle occurs at some offset |
| Store.MemoryStore.constructor | examples/internal/store/memory.go:44-53 | a new store has empty tables and the counter at 100, and is valid |
| Store.SearchIgnoresCase | examples/internal/store/memory.go:103-105 | changing the case of ASCII letters in the search text or in the asset's name never changes whether the asset passes the filter |
| Store.MemoryStore.ListAssets | examples/internal/store/memory.go:88-109 | the result holds exactly the stored assets passing every non-empty criterion, each once; it has as many entries as there are matching keys; with an all-empty filter it holds every asset |
| Store.ListedStep | examples/internal/store/memory.go:93-107 | one round of the listing loop keeps the result equal to the matching assets visited so far |
| Store.ListedAdd | examples/internal/store/memory.go:106 | appending a matching asset keeps the listing exact and its IDs distinct |
| Store.ListedSkip | examples/internal/store/memory.go:93-105 | skipping a non-matching asset keeps the listing exact |
| Store.ListedDone | examples/internal/store/memory.go:108 | once every key is visited the listing is complete and counts the matching keys |
| Store.MatchingKeysRemove | examples/internal/store/memory.go:93 | removing a visited key lowers the number of matching keys exactly when its asset matches |
| Store.MemoryStore.GetAsset | examples/internal/store/memory.go:112-121 | success exactly for a stored ID, giving the stored asset; otherwise the not-found error for that ID |
| Store.MemoryStore.CreateAsset | examples/internal/store/memory.go:124-136 | an empty ID advances the counter and takes "A%03d" of the new value; a given ID is kept and its entry overwritten; both timestamps become now; only that key changes; the logs are untouched; validity is kept |
| Store.MemoryStore.UpdateAsset | examples/internal/store/memory.go:139-149 | an absent ID is the not-found error with no change; otherwise the whole record under the ID is replaced by the given one stamped now, nothing else changes |
| Store.MemoryStore.DeleteAsset | examples/internal/store/memory.go:152-161 | an absent ID is the not-found error with no change; otherwise exactly that key is removed, logs and counter untouched |
| Store.MemoryStore.GetAssetStats | examples/internal/store/memory.go:164-190 | Total is the number of assets; Active, Maintenance and Retired count the assets with that status and add up to at most Total; each category and department present maps to its number of assets, exactly the values held by some asset appear, and each map's counts sum to Total |
| Store.StatusStep | examples/internal/store/memory.go:173-186 | one round of the statistics loop keeps the total and the three status counts exact |
| Store.GroupsStep | examples/internal/store/memory.go:176-177 | one round keeps the per-category and per-department counts exact and summing to the total |
| Store.TalliedStep | examples/internal/store/memory.go:176-177 | Go's `counts[v]++` on the visited asset's value keeps the tally exact and raises the sum by one |
| Store.StatsDone | examples/internal/store/memory.go:173-189 | once every asset is visited the counts describe the whole table |
| Store.KeysWithRemove | examples/internal/store/memory.go:173 | removing a visited key lowers the count of its own attribute value by one and no other |
| Store.SumValuesRemove | examples/internal/store/memory.go:176-177 | the sum of a counter map does not depend on the order its keys are taken |
| Store.SumValuesIncrement | examples/internal/store/memory.go:176-177 | incrementing one counter raises the sum of the counts by exactly one |
| Store.MemoryStore.ListMaintenance | examples/internal/store/memory.go:192-197 | the asset's list as stored (empty for an unknown ID), all its records belong to that asset and have distinct IDs |
| Store.MemoryStore.ListAllMaintenance | examples/internal/store/memory.go:200-209 | the result is, as a bag, every record of every list; a record appears exactly when its own asset's list holds it |
| Store.FlattenRemove | examples/internal/store/memory.go:204-206 | the bag of all records is one list's records plus the bag of the others, whichever list comes first |
| Store.FlattenMember | examples/internal/store/memory.go:204-206 | a record is in the bag exactly when some list holds it |
| Store.MemoryStore.CreateMaintenance | examples/internal/store/memory.go:212-221 | advances the counter by one, numbers the record "M%03d" of the new value, stamps it, appends it at the end of its asset's list only, with an ID no stored record has; assets and audit untouched; validity kept |
| Store.MemoryStore.ListAuditEntries | examples/internal/store/memory.go:224-229 | the asset's audit list as stored (empty for an unknown ID), all its entries belong to that asset and have distinct IDs |
| Store.MemoryStore.CreateAuditEntry | examples/internal/store/memory.go:232-241 | advances the counter by one, numbers the entry "AU%03d" of the new value, stamps it, appends it at the end of its asset's list only, with an ID no stored entry has; assets and maintenance untouched; validity kept |
| Store.FreshSerial | examples/internal/store/memory.go:216-217 | an ID printed from the next counter value is not the ID of any record already logged |
| Store.LogValidGrow | examples/internal/store/memory.go:216 | advancing the shared counter keeps the other log well formed |
| Store.LogValidAppend | examples/internal/store/memory.go:216-219 | appending a freshly numbered record to its own asset's list keeps the log well formed |
| Store.CounterAppend | examples/internal/store/memory.go:235-238 | one append through the shared counter keeps both logs well formed and uses a never-used ID |
| Api.Handler.constructor | examples/internal/api/handlers.go:21-23 | the handler serves the given store |
| Api.Handler.ListAssets | examples/internal/api/handlers.go:89-105 | 200 with exactly the stored assets matching the status, category, department and search query values (limit and offset zero), and meta.total their number |
| Api.Handler.GetAsset | examples/internal/api/handlers.go:109-119 | 200 with the stored asset, or 404 "Asset not found" |
| Api.Handler.CreateAsset | examples/internal/api/handlers.go:123-142 | undecodable body gives 400 "Invalid request body" and an empty name 400 "Name is required", both with the store untouched; otherwise 201 with the body as stored, carrying its given ID with the counter untouched, or, when it has none, the ID printed from the counter advanced by one |
| Api.Handler.UpdateAsset | examples/internal/api/handlers.go:146-162 | undecodable body gives 400 with the store untouched; the path ID overrides the body's; an unknown ID gives 404 with the table unchanged; otherwise 200 with the replacement stored under the path ID |
| Api.Handler.DeleteAsset | examples/internal/api/handlers.go:166-175 | 404 "Asset not found" with no change, or 204 with no content type and no body once exactly that asset is gone |
| Api.Handler.GetAssetStats | examples/internal/api/handlers.go:179-188 | 200 JSON with exactly the store's statistics: Total is the number of assets; Active, Maintenance and Retired count the assets with that status; each category and department present maps to its number of assets, exactly the values held by some asset appear, and each map's counts sum to Total |
| Api.Handler.GetAssetMaintenance | examples/internal/api/handlers.go:192-203 | 200 with that asset's records (none for an unknown asset), and meta.total their number |
| Api.Handler.ListAllMaintenance | examples/internal/api/handlers.go:207-216 | 200 with every record of every asset, and meta.total their number |
| Api.Handler.CreateMaintenance | examples/internal/api/handlers.go:220-239 | undecodable body or empty asset ID gives 400 with the store untouched; otherwise 201 with the numbered record appended to its asset's list, whether or not that asset exists |
| Api.Handler.HealthCheck | examples/internal/api/handlers.go:243-247 | 200 with status "healthy" |
| Middleware.ResponseWriter.WriteHeader | examples/internal/middleware/middleware.go:67 | the code is written to the underlying writer and the headers are kept |
| Middleware.StatusRecorder.constructor | examples/internal/middleware/middleware.go:43 | the wrapper reports 200 before any code is written |
| Middleware.StatusRecorder.WriteHeader | examples/internal/middleware/middleware.go:65-68 | the wrapper reports the last code written and forwards it to the wrapped writer |
| Middleware.GetRequestID | examples/internal/middleware/middleware.go:29-34 | the int64 stored under the request-ID key, or 0 when none is stored |
| Middleware.RequestIDRoundTrip | examples/internal/middleware/middleware.go:16-31 | an ID stored under the key reads back; another key leaves the answer unchanged; a non-int64 value or an empty context reads 0 |
| Middleware.RealIP | examples/internal/middleware/middleware.go:90-99 | the remote address becomes the client address rule's answer, nothing else in the request changes, and the request is handed on |
| Middleware.ClientAddressPrecedence | examples/internal/middleware/middleware.go:92-96 | a non-empty X-Forwarded-For wins, else a non-empty X-Real-IP, else the address is kept; the rule is idempotent |
| Middleware.CheckOrigin | examples/internal/middleware/middleware.go:108-114 | the origin is allowed exactly when some allow-list entry is "*" or the origin itself |
| Middleware.Cors | examples/internal/middleware/middleware.go:102-132 | the four CORS headers are set when the origin is allowed and none otherwise; OPTIONS gets 204 and is not handed on, any other method is handed on with nothing written |
| Middleware.CorsHeadersEcho | examples/internal/middleware/middleware.go:116-121 | Allow-Origin echoes the request origin, Max-Age is 86400, and no other header changes |
| Middleware.SecureHeaders | examples/internal/middleware/middleware.go:135-143 | the four security headers get their fixed values, every other header is kept, nothing is written, and the request is handed on |
| Middleware.ContentType | examples/internal/middleware/middleware.go:157-164 | Content-Type is set to the configured value, only it changes, and the request is handed on |
| Money.TruncateToInt | examples/insurance-quote/internal/ui/handlers.go:35 | the conversion drops the fraction toward zero |
| Money.SmallNegativeAmount | examples/insurance-quote/internal/ui/handlers.go:35-50 | an amount strictly between -1 and 0 prints "$0", with no minus sign |
| Money.FormatMoney | examples/insurance-quote/internal/ui/handlers.go:33-71 | the output is "$" or "-$" followed by the digits of the absolute value grouped in threes from the right |
| Money.InsertCommas | examples/insurance-quote/internal/ui/handlers.go:52-65 | the builder loop produces the digits grouped in threes from the right |
| Money.BuiltStart | examples/insurance-quote/internal/ui/handlers.go:53-59 | the short leading group and its comma are the grouping of the first n % 3 digits |
| Money.BuiltStep | examples/insurance-quote/internal/ui/handlers.go:60-64 | writing the next three digits, and a comma unless they are the last, extends the grouping by one group |
| Money.BuiltEnd | examples/insurance-quote/internal/ui/handlers.go:60-65 | once every digit is written the builder holds the whole grouping |
| Money.StripGroupThousands | examples/insurance-quote/internal/ui/handlers.go:52-65 | removing the commas from the grouping gives the digits back |
| Money.StripCommasAppend | examples/insurance-quote/internal/ui/handlers.go:52-65 | removing commas distributes over concatenation |
| Money.GroupLayout | examples/insurance-quote/internal/ui/handlers.go:53-65 | the grouping has one comma per full group after the first, exactly where the distance to the end is a multiple of four, and digits elsewhere |
| Money.CommaLayoutAppend | examples/insurance-quote/internal/ui/handlers.go:60-64 | appending a comma and three digits keeps the comma layout |
| Money.LeadingGroup | examples/insurance-quote/internal/ui/handlers.go:53-59 | the leading group is the first n % 3 digits (3 when that is 0) and is followed by a comma when digits remain |
| Money.LeadingGroupPrefix | examples/insurance-quote/internal/ui/handlers.go:53-59 | the grouping starts with the leading group's digits |
| Money.LeadingSize | examples/insurance-quote/internal/ui/handlers.go:53 | the leading group has one to three digits and leaves a whole number of full groups |
| Money.GroupEdges | examples/insurance-quote/internal/ui/handlers.go:54-64 | the grouping neither starts nor ends with a comma |
| Money.MoneyTextSplit | examples/insurance-quote/internal/ui/handlers.go:67-70 | the output is the sign and dollar prefix followed by the grouping |
| Money.MoneyTextProperties | examples/insurance-quote/internal/ui/handlers.go:33-71 | prefix "-$" exactly for negatives and "$" otherwise; no comma after the prefix or at the end; stripping the commas gives the digits of the absolute value, which parse back to it; at most three digits means no comma |
| Components.Icon | examples/internal/ui/components.go:132-155 | "add" exactly gives the fixed SVG; any other name a span of class "icon" holding its glyph |
| Components.IconGlyphLookup | examples/internal/ui/components.go:133-151 | a known name shows its table entry; the bullet appears exactly for names the table lacks |
| Components.StatusBadge | examples/internal/ui/components.go:157-170 | a span whose text is the status itself, with the badge classes and the status's colour |
| Components.BadgeColorLookup | examples/internal/ui/components.go:158-168 | the five known statuses get their table colour; grey exactly for "retired" and unknown statuses |
| Components.FormField | examples/internal/ui/components.go:220-237 | the label points at the input's ID "field-" + name; the input is Required and the label carries the asterisk classes exactly when the field is required |
| Components.OptionMarking | examples/internal/ui/components.go:241-250 | one more option than choices: first the unmarked prompt with empty value and "Select...", then each choice in order, selected exactly when its value equals the selected one |
| Components.SelectAttrsLinks | examples/internal/ui/components.go:255-261 | the select carries the label's target ID and is Required exactly when the field is |
| Components.SelectField | examples/internal/ui/components.go:239-267 | the filled option array is the prompt followed by one marked option per choice, under the label and select attributes |
| Components.RecordRow | examples/internal/ui/components.go:465-471 | a row whose first cell is the record's date and last cell its status badge |
| Components.MaintenanceTable | examples/internal/ui/components.go:459-485 | no records give exactly the "No maintenance records" message; otherwise a table whose body has one row per record, in order |
| Components.LastService | examples/internal/ui/components.go:492-495 | the first seven characters of the first record's date when it has at least seven, else "N/A" |
| Components.MaintenanceSummary | examples/internal/ui/components.go:487-510 | three tiles: the record count printed with `%d`, the given total-cost text captioned "Total Cost", and the last service month |
| Components.SummaryCount | examples/internal/ui/components.go:498 | the displayed count reads back as the number of records |

## Left out

- Concurrency: the store's read-write lock only serialises its methods, so each method is one atomic step.
- Clock readings (`time.Now()`) are the `now` parameter of the store and handler methods. The Logger duration and the Timeout middleware's deadline are not modelled.
- Store.MemoryStore.CreateAsset: stamps CreatedAt and UpdatedAt with the one `now`, so the two are always equal. The source reads the clock twice, so in Go they can differ by the time between the two reads.
- Store.MemoryStore: the counter `nextID` is an unbounded natural number where the source has a Go `int`. The fresh-ID guarantee of CreateMaintenance and CreateAuditEntry therefore assumes the counter never wraps around.
- The RequestID middleware is not modelled: its ID is a clock reading and its counter is unsynchronised. So are the X-Request-ID header it prints and the Logger, Recoverer and Timeout middleware, which log, recover panics or set deadlines.
- Floating-point fields are not modelled: purchase cost, current value, maintenance cost and `AssetStats.TotalValue`.
- The float-to-`int64` conversion before `formatMoney` is modelled only as truncation toward zero; its behaviour out of `int64` range is not modelled.
- Components.RecordRow: leaves out the cost cell (`$%.2f` of a float), so a row has four cells where the source has five.
- Components.MaintenanceSummary: the total-cost tile's text (`$%.0f` of a float sum) is a parameter.
- JSON decoding and encoding are not modelled. A body reaches a handler as a decoded value or `None`. Nil versus empty slices in the encoded `data` are not distinguished.
- chi routing and URL parameters are not modelled; the path ID is a handler parameter.
- The handlers' 500 branches are not modelled: the in-memory store's methods never return an error there, so those branches cannot be reached.
- The markup library is not modelled: elements are a tag, attributes and children. Class strings are compared as whole strings.
- The page layouts, sidebar, tables other than the maintenance table, and the form and page handlers are not modelled.
- Sample data loaded at start-up is not modelled; the store starts empty with the counter at 100.
- Text.ToLower: lower-cases ASCII letters only, where `strings.ToLower` also folds other Unicode letters.
- Middleware.HeaderGet: headers are a map from canonical name to one value, as Go's server stores incoming headers. The names the middleware reads and sets are written in that canonical form, for example "X-Real-Ip" and "X-Xss-Protection". The canonicalisation function itself is not modelled, and neither are multi-valued headers.
- Components.LastService: counts characters where Go's `len` and `[:7]` count UTF-8 bytes. For a date with non-ASCII characters Go can show a shorter or cut-off prefix; the two agree on ASCII dates such as "2025-01-03".
- Middleware.ResponseWriter.WriteHeader: records every code. Go's server ignores the second and later calls, so that suppression is not modelled.
