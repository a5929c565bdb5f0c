# lb-check in Dafny

`lb-check.py` reads a pipe-separated table of load balancers. Each row gives:

- a name;
- a frontend address and port;
- a health-check URL;
- a backend address expression such as `192.168.1.[5:6],192.168.1.10`;
- a backend port;
- an optional `user:password`.

For every record it probes the frontend once, then every backend in order. Each probe is a TCP connect (L4) and, when the row names a health-check URL, an HTTP GET (L7). It prints one report line per backend. A status column reads "passing" exactly when the status list joins to `L4:P` or `L4:P,L7:P`.

The project models this core in seven modules, one file each:

- `wrappers.dfy`: `Option` and `Result`.
- `text.dfy` (`Text`): the Python string operations the core relies on, each with its own lemmas:
  - `strip` on ASCII white space;
  - `split` and `join` on one character;
  - `str.index`, slicing, `int` on decimal digits, and `str` of a natural number.
- `ip_ranges.dfy` (`IpRanges`): class `IpRanges`.
  - `is_range`.
  - `range_to_list`, as a method with the source's loop, proved equal to `RangeExpansion`.
  - `parse`, as a method with the source's loop, proved equal to `Expansion`.
  - The grammar of a range item, in both directions.
  - Properties of the expansion: order, membership, first error wins, idempotence.
  - The documented examples.
- `records.dfy` (`Records`): `Endpoint`, `HealthCheck` and `LoadBalancer.parse`. The method keeps the source's loop over the expanded addresses.
- `status.dfy` (`Status`): the four status codes, the comma-joined status text and the "passing" rule of `print_lb_status`.
- `probes.dfy` (`Probes`): `telnet` and `http_get`. The TCP connect and the HTTP request are function parameters. What is modelled is how their answers become codes and how `auth` becomes credentials.
- `check.dfy` (`Check`): the `check` driver.
  - The result is a `Run` value. It records the arguments of every `print_lb_status` call, every network probe in the order made, and the exception that ended the run, if any.
  - `verbose` is a parameter.
  - Each loop of the source is a method proved equal to a recursive specification function. The lemmas state the ordering, layout and failure behaviour of that function.

Behaviour of the code worth stating outright:

- **No row isolation.** `check` has no exception handler. A row with the wrong number of fields, or with a malformed range item, raises out of `check` and ends the run. The rows already printed stay printed (`BadRowStopsRun`).
- **A missing colon in `auth` ends the run when there is a health-check URL.** With a non-empty health-check URL, a non-empty `auth` without a colon raises `ValueError` inside `http_get`, which catches only `RequestException`. The frontend is checked first, so the record prints nothing (`RecordRunShape`). With an empty URL `http_get` is never called, and such an `auth` is harmless.
- **An inverted range is empty.** A range whose lower bound exceeds its upper bound expands to nothing, because Python's `range` is then empty. It is not an error (`InvertedRangeExample`).
- **A passing column reads "passing".** Its text is the word "passing", not the joined codes (`PassingExamples`). Every other list, `L4:F,L7:P` included, shows its joined codes (`FailingExamples`).
- **The L7 probe always runs.** It runs even after a failed TCP connect, so `L4:F,L7:P` can be reported (`L4FailL7PassReachable`).
- **Text after `]` is dropped.** Anything after the first `]` of a range item is ignored. A `:` in front of the `[` makes the lower bound the empty text, and `int` rejects it.

## Model

| member | source | states |
|---|---|---|
| Text.StripShape | lb-check.py:54-57 | `strip()` returns a contiguous slice of its input, preceded and followed only by white space and neither starting nor ending with white space |
| Text.StripOf | lb-check.py:54-57 | white space around a text without surrounding white space is exactly what `strip()` removes |
| Text.StripIdempotent | lb-check.py:54-57 | stripping twice is stripping once |
| Text.IndexOfShape | lb-check.py:42-44 | `str.index` fails exactly when the character is absent; otherwise it returns the position of its first occurrence |
| Text.IndexOfAt | lb-check.py:42-44 | a position holding the character, with no earlier occurrence, is what `str.index` returns |
| Text.SplitShape | lb-check.py:52 | `split(',')` returns at least one item, and no item contains a comma |
| Text.JoinSplit | lb-check.py:52 | joining the pieces of a split with the separator gives back the original text |
| Text.SplitJoin | lb-check.py:181 | splitting the join of separator-free items gives back the items |
| Text.SplitCount | lb-check.py:52 | a split has one more item than the text has separators |
| Text.ParseNatToStr | lb-check.py:45-46 | `int(str(n)) == n` for every natural number |
| Text.NatToStrInjective | lb-check.py:46 | different numbers print differently |
| Text.NatToStrCanonical | lb-check.py:46 | `str(n)` is non-empty decimal digits without a leading zero, except for zero itself |
| Text.NatToStrOfCanonical | lb-check.py:45-46 | a canonical digit string is `str` of its value |
| IpRanges.SplitRangeCuts | lb-check.py:42-45 | an accepted range item is cut at its first `[`, first `:` and first `]`; both bounds are non-empty digit strings |
| IpRanges.SplitRangeShape | lb-check.py:42-45 | every accepted range item is well formed: a prefix without brackets or colon, two decimal bounds, any suffix; it is rebuilt exactly from those parts |
| IpRanges.SplitRangeOfText | lb-check.py:42-45 | every well-formed range item is accepted and cut back into the same parts |
| IpRanges.Ascending | lb-check.py:45-46 | `hi - lo + 1` addresses when `lo <= hi`, none otherwise; the k-th is the prefix followed by `str(lo + k)` |
| IpRanges.AscendingDistinct | lb-check.py:45-46 | the addresses of one range are pairwise distinct |
| IpRanges.AscendingMember | lb-check.py:45-46 | every address of a range is the prefix followed by a number between the bounds |
| IpRanges.AscendingHas | lb-check.py:45-46 | every number between the bounds gives an address of the range |
| IpRanges.RangeToList | lb-check.py:40-48 | the loop of `range_to_list` returns the range's addresses in ascending order, or the error of the first failing `index` or `int` call |
| IpRanges.RangeItemText | lb-check.py:36-37 | `prefix[f:t]` is already stripped and `is_range` holds for it |
| IpRanges.RangeItemExpansion | lb-check.py:40-48 | `prefix[f:t]`, with decimal bounds, expands to the addresses from `f` to `t` |
| IpRanges.ExpandItem | lb-check.py:54-57 | one loop step of `parse`: a stripped range item is expanded, any other item is kept stripped as one address |
| IpRanges.Parse | lb-check.py:50-59 | the loop of `parse` returns the concatenated expansions of the comma-separated items, or the first error |
| IpRanges.ExpandItemsErrorSticks | lb-check.py:53-57 | once an item fails, the items after it change nothing |
| IpRanges.ExpandItemsStep | lb-check.py:53-57 | one more item extends the expansion so far, or fails with its own error |
| IpRanges.ExpandItemsAppend | lb-check.py:50-59 | expanding two lists of items in sequence concatenates the two expansions, in order |
| IpRanges.ExpandItemsOk | lb-check.py:50-59 | the expression expands exactly when every item does |
| IpRanges.ExpandItemsFirstError | lb-check.py:53-57 | a failing expression fails with the error of its first failing item; no item is skipped |
| IpRanges.ExpandItemsMember | lb-check.py:53-57 | an address is in the result exactly when some item produces it |
| IpRanges.LiteralItems | lb-check.py:56-57 | items that are not ranges pass through stripped, one address each, in order |
| IpRanges.LiteralExpansion | lb-check.py:50-59 | an expression without range items yields one address per comma-separated item, never the empty list |
| IpRanges.RangeAddressIsLiteral | lb-check.py:42-46 | an address made from a stripped range item is stripped and contains neither `:` nor `,` |
| IpRanges.AddressIsLiteral | lb-check.py:53-57 | every address an item produces is stripped and contains neither `:` nor `,` |
| IpRanges.AddressesAreLiteral | lb-check.py:50-59 | every address of an expansion is stripped and contains neither `:` nor `,` |
| IpRanges.ExpansionIdempotent | lb-check.py:50-59 | joining a non-empty expansion with commas and expanding it again gives the same addresses |
| IpRanges.LiteralItem | lb-check.py:54-57 | a text without `:` and without surrounding white space is one address |
| IpRanges.ExpansionOfJoin | lb-check.py:52-59 | expanding comma-joined items is expanding the items |
| IpRanges.ExpansionOfOne | lb-check.py:52-59 | an expression without a comma is a single item |
| IpRanges.ExpansionOfTwo | lb-check.py:52-59 | two items that both expand give their addresses in the order written |
| IpRanges.ExpansionOfTwoSecondFails | lb-check.py:52-59 | a failing second item fails the whole expression even though the first expanded |
| IpRanges.EmptyExpressionExample | lb-check.py:50-59 | the empty expression gives `[""]`, not `[]` |
| IpRanges.PrefixedLiteral | lb-check.py:56-57 | an address prefix followed by digits is one literal address |
| IpRanges.SingleAddressExample | lb-check.py:25 | `192.168.1.5` gives that one address (stated for any address prefix) |
| IpRanges.TwoAddressesExample | lb-check.py:26 | `192.168.1.5,192.168.1.6` gives the two addresses in order |
| IpRanges.RangeFiveSix | lb-check.py:40-48 | `prefix[5:6]` gives `prefix5` and `prefix6` |
| IpRanges.RangeTwentyToTwentyThree | lb-check.py:40-48 | `prefix[20:23]` gives `prefix20` to `prefix23` in ascending order |
| IpRanges.RangeThenAddressExample | lb-check.py:27 | `192.168.1.[5:6],192.168.1.10` gives `.5`, `.6` and `.10`, in that order |
| IpRanges.TwoRangesExample | lb-check.py:28 | `192.168.1.[5:6],192.168.1.[20:23]` gives the six addresses in order |
| IpRanges.MissingBracketSplit | lb-check.py:44 | `prefix[5:` has no `]`, so `index(']')` raises |
| IpRanges.MissingBracketExample | lb-check.py:44 | the expression `prefix[5:` is an error naming that item |
| IpRanges.BadBoundSplit | lb-check.py:43-45 | in `prefix[a:3]` the lower bound `a` is not a number |
| IpRanges.BadBoundItem | lb-check.py:43-45 | the item `prefix[a:3]` fails on its lower bound |
| IpRanges.BadBoundExample | lb-check.py:43-45 | `prefix1,prefix[a:3]` fails on the second item even though the first expanded |
| IpRanges.RangeSixFive | lb-check.py:45 | `prefix[6:5]` names no address |
| IpRanges.InvertedRangeExample | lb-check.py:45 | an expression that is one inverted range expands to the empty list, without error |
| IpRanges.DocumentedPrefixes | lb-check.py:24-28 | `192.168.1.` and `10.0.0.` are address prefixes, so the prefix-generic examples apply to them |
| Status.CodeTextShape | lb-check.py:99-103 | every status string has four characters and no comma; different codes have different strings |
| Status.FormatLength | lb-check.py:181 | a joined status list has `5n - 1` characters for `n` codes, none for no codes |
| Status.FormatInjective | lb-check.py:181 | the joined text determines the status list |
| Status.PassingTexts | lb-check.py:181-182 | `[L4:P]` joins to `L4:P` and `[L4:P, L7:P]` to `L4:P,L7:P` |
| Status.PassingExactly | lb-check.py:181-182 | the status text is compared true exactly for the lists `[L4:P]` and `[L4:P, L7:P]` |
| Status.PassingExamples | lb-check.py:182-185 | both passing lists are shown as "passing" |
| Status.FailingCell | lb-check.py:186-189 | every other list is shown as its joined codes, in the warning colour |
| Status.FailingTexts | lb-check.py:181 | the joined text of the four failing lists of one or two codes |
| Status.FailingExamples | lb-check.py:194-202 | `L4:F`, `L4:P,L7:F`, `L4:F,L7:P` and `L4:F,L7:F` are shown as themselves, not as "passing" |
| Status.EmptyStatusCell | lb-check.py:235 | the empty frontend status of a follow-on row is shown as an empty warning cell |
| Probes.SplitAuthCases | lb-check.py:124-129 | empty `auth` means no credentials; a non-empty one without a colon raises; otherwise the user is colon-free and `user:password` gives back `auth` |
| Probes.SplitAuthOf | lb-check.py:125-126 | a colon-free user and any password, colons included, are split back apart |
| Probes.SplitAuthExample | lb-check.py:125-126 | `admin:p:w` is user `admin` with password `p:w` |
| Probes.ProbeCodes | lb-check.py:106-136 | `telnet` answers `L4:P` exactly when the connect succeeds and `L4:F` otherwise; `http_get` raises exactly on a malformed `auth`, and then sends no request; otherwise it answers `L7:P` exactly when the request to `http://ip:port/url` succeeds |
| Records.WithPortShape | lb-check.py:93-94 | one endpoint per expanded address, the k-th on the k-th address, all on the backend port |
| Records.Parse | lb-check.py:84-96 | `LoadBalancer.parse` returns the record of a seven-field row, or the unpacking or range error |
| Records.RecordShape | lb-check.py:84-96 | a row gives a record exactly when it has seven fields and its ranges expand; the record holds the stripped fields and one backend per address, in order, on the stripped backend port |
| Records.RecordStripped | lb-check.py:86-96 | every text a record holds is stripped, and no backend address contains `:` or `,` |
| Records.SingleBackend | lb-check.py:93-94 | a backend field holding one plain address gives exactly one backend |
| Check.CheckEndpoint | lb-check.py:221-228 | builds an endpoint's status list by appending: the L4 code, then the L7 code when the URL is set; records the probes made |
| Check.StatusListShape | lb-check.py:221-228 | a status list is one L4 code, followed by one L7 code exactly when the health check has a URL, whatever the L4 answer; it is missing only when the `auth` split raises |
| Check.EndpointVerdict | lb-check.py:221-228 | an endpoint shows "passing" exactly when its connect succeeded and, if there is a URL, its request succeeded too |
| Check.L4FailL7PassReachable | lb-check.py:221-223 | a failed connect with a successful request is reported as `L4:F,L7:P` |
| Check.BackendsRunSticks | lb-check.py:225-228 | once a backend's check raised, later backends are neither probed nor printed |
| Check.CheckBackends | lb-check.py:225-238 | the loop over `enumerate(lb.backends)` probes and reports every backend in order until a check raises |
| Check.CheckRecord | lb-check.py:220-238 | the frontend is checked once, then the backends |
| Check.BackendsRunStep | lb-check.py:225-238 | under a runnable health check, one more backend adds its probes and its row |
| Check.BackendsRunOk | lb-check.py:225-238 | under a runnable health check, no backend raises, there is one row per backend, and the probes come in backend order |
| Check.BackendsRunRow | lb-check.py:230-238 | row k is the report of backend k: compact mode blanks the record fields after the first row, verbose mode repeats them |
| Check.BackendsRunShape | lb-check.py:225-238 | under a runnable health check, the first n backends give n rows in order and never raise |
| Check.RecordRunShape | lb-check.py:220-238 | with a non-empty health-check URL and a non-empty `auth` without a colon, the record prints nothing and only the frontend is probed; otherwise the frontend is probed before each backend in order, with one row per backend; the name, frontend and health-check fields are on every row in verbose mode and on the first row only in compact mode |
| Check.RowsRunSticks | lb-check.py:218-220 | once a row raised, later rows are neither parsed, probed nor printed |
| Check.RowsRunStep | lb-check.py:218-238 | one more row extends the run of the rows before it |
| Check.CheckRow | lb-check.py:219-238 | one loop step of `check`: an empty row does nothing, any other is parsed and checked |
| Check.Check | lb-check.py:211-238 | the driver skips the header, then handles every data row in order until one raises; an empty file raises on the missing header |
| Check.ThenAssociative | lb-check.py:218 | running parts of the file one after the other does not depend on how they are grouped |
| Check.RowsRunAppend | lb-check.py:218-219 | rows are handled in file order: the rows of `a + b` run as `a`, then `b` unless `a` raised |
| Check.EmptyRowSkipped | lb-check.py:219 | an empty row is neither parsed nor probed and prints nothing |
| Check.BadRowStopsRun | lb-check.py:218-220 | a row with the wrong field count or a malformed range ends the run; earlier rows stay reported, later ones are not |
| Check.HeaderOnly | lb-check.py:214 | an empty file raises; a header alone gives an empty report |
| Check.SingleRecordEndToEnd | lb-check.py:211-238 | a header and one record with one backend, no URL and every connect succeeding give one row; frontend and backend are each `L4:P` and shown as "passing" |

## Left out

- Sockets and HTTP are parameters. The TCP connect and `requests.get(...).ok` are pure functions of their arguments. Timeouts, retries and the 3-second limit are not modelled; a timeout is just a `false` answer.
- Exceptions raised inside `telnet` other than `socket.timeout` are not modelled. These include `int(port)` on a non-numeric port and address-resolution errors, which escape `telnet` in the source. `telnet` always yields a code here.
- The socket that `telnet` never closes is not modelled.
- CSV decoding is not modelled. The file is given as the list of rows `csv.reader` yields, so the dialect, quoting and file opening are out of scope.
- Terminal output is not modelled. Column widths, colours, `print_header`, `print_empty_line` and `column_width` are left out. The rows record the arguments of each `print_lb_status` call, and `Status.StatusCell` records each status column's text and colour.
- `main`, option parsing and the global `verbose` flag are left out. `verbose` is a parameter of the driver.
- `int` accepts only non-empty ASCII decimal digit strings here, leading zeros included. Python also accepts a sign, surrounding white space, underscores and non-ASCII digits, all of which this model rejects.
- `strip` removes only ASCII white space, not the other Unicode white-space characters Python also removes.
- IpRanges.SingleAddressExample: stated for any address prefix rather than for the literal text `192.168.1.`; `IpRanges.DocumentedPrefixes` shows that the documented prefixes qualify.
- IpRanges.TwoAddressesExample: stated for any address prefix rather than for the literal text `192.168.1.`; `IpRanges.DocumentedPrefixes` shows that the documented prefixes qualify.
- IpRanges.RangeThenAddressExample: stated for any address prefix rather than for the literal text `192.168.1.`; `IpRanges.DocumentedPrefixes` shows that the documented prefixes qualify.
- IpRanges.TwoRangesExample: stated for any address prefix rather than for the literal text `192.168.1.`; `IpRanges.DocumentedPrefixes` shows that the documented prefixes qualify.
