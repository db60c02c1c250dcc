# ProjectUtilities: the stateable core, in Dafny

ProjectUtilities is a collection of Swift conveniences for iOS apps. Most of
it draws views and runs animations. This project models the two parts whose
behaviour can be stated exactly.

- **String, number and small-state helpers** of `CommonUtilities.swift`:
  - `toBool` and the colon-separated ID;
  - `concat` and the masking encoder `getEncodedString`;
  - the `k`/`m` abbreviator and the "time ago" phrase ladder;
  - the phone and password validators;
  - the observable box `Dynamic<T>`;
  - `Dictionary.merge`, `peekObjectAt` and `RangeIntToRangeStringIndex`;
  - the nil-or-empty tests, and `Int`'s decimal spelling and reading.
- **The request helper** of `NetworkLibrary.swift`:
  - how `apiRequest` assembles a request: path, query items without `nil`
    values, the default `Content-Type`, the caller's hook, then the
    resource's headers;
  - the one callback a completed task makes;
  - `encodeJSON`'s removal of `nil` entries;
  - `Dictionary.getQueryString`.

Modules:

- `Wrappers` (`wrappers.dfy`): `Option`, `Checked` (a value or a runtime trap) and `Int64`.
- `Decimal` (`decimal.dfy`): the decimal spelling of integers and Swift's `Int(String)`.
- `StringHelpers` (`string_helpers.dfy`).
- `Abbreviation` (`abbreviation.dfy`).
- `TimeAgo` (`time_ago.dfy`).
- `Validators` (`validators.dfy`).
- `Collections` (`collections.dfy`).
- `Observable` (`observable.dfy`): the class `Dynamic`.
- `Network` (`network.dfy`).

A Swift `String` is a `seq<char>` here. Dictionaries are Dafny maps. Swift
visits a dictionary's entries in an unspecified order. The loops that walk
one pick the next key with `:|`, so their contracts hold for every order.
Where the result depends on the order (`getQueryString`), a ghost `order`
names the order that was used.

The platform's services are parameters:

- `URLComponents(string:)` is `parseUrl`.
- Whether `components.url` exists is `buildsUrl`.
- `JSONSerialization` is `serialize`.
- Percent-encoding is `percentEncode`.
- The calendar split of an interval is `components`.

Only status 200 counts as success. Any other status, other 2xx codes
included, fails with `noSuccessStatusCode`. A response that is not an HTTP
response fails with `other(error)` and the raw data, whatever the error is.

## Model

| member | source | states |
|---|---|---|
| `Decimal.NatToString` | ProjectUtilities/Classes/CommonUtilities.swift:980-982 | The decimal spelling of a natural number is non-empty, all digits, and has no leading zero. |
| `Decimal.ParseNatToString` | ProjectUtilities/Classes/CommonUtilities.swift:980-982 | Reading the digits of a natural number's spelling gives back that number. |
| `Decimal.IntToString` | ProjectUtilities/Classes/CommonUtilities.swift:980-982 | `"\(n)"` starts with '-' exactly for negative numbers. After the sign come only digits. For every n there is no leading zero: a non-negative spelling starts with '0' only for 0, and a negative one never has '0' after the '-'. |
| `Decimal.IntegerValue` | ProjectUtilities/Classes/CommonUtilities.swift:889-891 | `Int(String)` accepts only strings that start with a digit or a sign. It also requires digits after the sign and a value that fits in 64 bits. |
| `Decimal.StringValueRoundTrip` | ProjectUtilities/Classes/CommonUtilities.swift:980-982 | For every 64-bit integer `n`, `Int("\(n)")` gives back `n`. |
| `Decimal.StringValue` | ProjectUtilities/Classes/CommonUtilities.swift:980-982 | `Int.stringValue` reads back as the same integer. |
| `Decimal.NonOptionalStringValue` | ProjectUtilities/Classes/CommonUtilities.swift:996-1001 | A `nil` Int spells "0". Any other Int's spelling reads back as the value. |
| `Decimal.OptionalStringValue` | ProjectUtilities/Classes/CommonUtilities.swift:1003-1008 | `nil` gives `nil`. A value gives a spelling that reads back as the value. |
| `Decimal.NilOrZeroSpellsZero` | ProjectUtilities/Classes/CommonUtilities.swift:1010-1015 | `isIntegerNilOrZero` holds exactly when the non-optional spelling is "0". |
| `StringHelpers.ToBoolAcceptsExactlyTrueWords` | ProjectUtilities/Classes/CommonUtilities.swift:857-868 | `toBool` is true exactly for "True", "true", "yes", "YES", "Yes" and "1". The listed false words and every other string give false. |
| `StringHelpers.OptionalToBoolAcceptsExactlyTrueWords` | ProjectUtilities/Classes/CommonUtilities.swift:103-109 | A `nil` string is false. A present string is true exactly when it is one of the six true words. |
| `StringHelpers.Split` | ProjectUtilities/Classes/CommonUtilities.swift:806 | `components(separatedBy:)` gives at least one piece. No piece holds the separator, and joining the pieces with the separator restores the string. A string without the separator is its own only piece. |
| `StringHelpers.SplitJoin` | ProjectUtilities/Classes/CommonUtilities.swift:806 | Splitting a joined list gives the list back when no piece holds the separator. |
| `StringHelpers.SecondComponentAfterColon` | ProjectUtilities/Classes/CommonUtilities.swift:806-809 | After the first ':', there are at least two components. The second one is the text from there up to the next ':' or the end. |
| `StringHelpers.ColonSeparatedId` | ProjectUtilities/Classes/CommonUtilities.swift:805-813 | A string with no ':' is returned whole. Otherwise the result is the text between the first ':' and the next ':' or the end. |
| `StringHelpers.Concat` | ProjectUtilities/Classes/CommonUtilities.swift:1193-1206 | If both strings are non-nil and non-empty, the result is str1 + separator + str2. If exactly one is, the result is that one. The result is `nil` exactly when both are nil or empty. |
| `StringHelpers.ConcatNilLikeEmpty` | ProjectUtilities/Classes/CommonUtilities.swift:99-101 | `concat` never returns an empty string. A `nil` argument behaves exactly like "". |
| `StringHelpers.ConcatKeepsBothEnds` | ProjectUtilities/Classes/CommonUtilities.swift:1194-1196 | With both parts present, the result starts with str1 and ends with str2. Its length is the sum of the three lengths. |
| `StringHelpers.EncodedString` | ProjectUtilities/Classes/CommonUtilities.swift:1244-1258 | Let k = count / 4. The length is kept, and a string shorter than 4 is unchanged. The first k and last k characters are kept, and every character between them becomes 'X'. |
| `StringHelpers.EncodedStringIdempotent` | ProjectUtilities/Classes/CommonUtilities.swift:1244-1258 | Masking an already masked string changes nothing. |
| `Abbreviation.TenthsText` | ProjectUtilities/Classes/CommonUtilities.swift:1268-1277 | A '.' in the printed number can only be the second-to-last character. The digit after it is never '0'. A count of ten tenths or more prints with no leading zero. |
| `Abbreviation.AbbreviateNumber` | ProjectUtilities/Classes/CommonUtilities.swift:1260-1291 | Below 1000, negatives included, the result is the plain canonical decimal: an optional '-' then digits, with no leading zero ("0" only for 0). It reads back as the number. Otherwise it ends in 'k' (below a million) or 'm'. It has no leading zero. At most one digit follows a '.', and that digit is never 0. |
| `Abbreviation.AbbreviationReadsBack` | ProjectUtilities/Classes/CommonUtilities.swift:1260-1291 | Reading the result back gives the plain number below 1000. Otherwise it gives n div 100 tenths of 'k' or n div 100000 tenths of 'm'. The result is truncated: tenths * unit <= n < (tenths + 1) * unit. |
| `TimeAgo.TimeAgoSymmetric` | ProjectUtilities/Classes/CommonUtilities.swift:1093-1095 | Swapping `date` and `currentDate` gives the same phrase. |
| `TimeAgo.PhraseFollowsLeadingUnit` | ProjectUtilities/Classes/CommonUtilities.swift:1097-1149 | The largest unit that reaches its threshold decides the phrase. That threshold is 3 for seconds and 1 for the rest, and all larger units are 0. Two or more gives "N units ago". One gives the numeric or the idiomatic phrase. |
| `TimeAgo.JustNowExactly` | ProjectUtilities/Classes/CommonUtilities.swift:1145-1149 | The phrase is "Just now" exactly when every unit above seconds is 0 and fewer than 3 seconds passed. |
| `TimeAgo.NumericDatesOnlyChangesSingulars` | ProjectUtilities/Classes/CommonUtilities.swift:1097-1144 | `numericDates` changes the phrase exactly when the leading unit's count is 1. |
| `Validators.ValidNumberShape` | ProjectUtilities/Classes/CommonUtilities.swift:1335-1343 | A phone number is valid exactly when it has 12 characters, with '-' at positions 3 and 7 and digits everywhere else. |
| `Validators.FormattedNumberIsValid` | ProjectUtilities/Classes/CommonUtilities.swift:1339-1341 | Any ten digits written as ddd-ddd-dddd pass. |
| `Validators.ScanPasswordMeaning` | ProjectUtilities/Classes/CommonUtilities.swift:1349-1351 | The single pass over a password finds three things exactly when they hold: every character is allowed, some character is lower case, and some character is in the lookahead's special class. |
| `Validators.ValidPasswordMatchesPattern` | ProjectUtilities/Classes/CommonUtilities.swift:1345-1353 | The recogniser accepts exactly the strings the anchored pattern matches. These have at least 6 allowed characters, a lower-case letter and a special character. |
| `Validators.BracesNeverAccepted` | ProjectUtilities/Classes/CommonUtilities.swift:1349 | An accepted password never holds '{' or '}', so its special character is one of `$@#!%*?&`. |
| `Collections.Merge` | ProjectUtilities/Classes/CommonUtilities.swift:1050-1054 | The keys become self's keys plus dict's. Every key of `dict` gets dict's value, and every other key keeps its value. `onlyNonNilValues` has no effect. |
| `Collections.MergeStoresNil` | ProjectUtilities/Classes/CommonUtilities.swift:1050-1054 | A `nil` in `dict` overwrites a present value, whatever the flag says. |
| `Collections.MergeNonNil` | ProjectUtilities/Classes/CommonUtilities.swift:1050-1054 | Corrected merge: when `onlyNonNilValues` is set, `nil` entries of `dict` leave self's entry alone. Every other entry of `dict` is stored. |
| `Collections.PeekObjectAt` | ProjectUtilities/Classes/CommonUtilities.swift:219-224 | A negative index traps. An index inside the array gives its element, and an index at or past `count` gives `nil`. |
| `Collections.PeekNegativeIndexTraps` | ProjectUtilities/Classes/CommonUtilities.swift:220-221 | Index -1 traps. |
| `Collections.PeekObjectAtChecked` | ProjectUtilities/Classes/CommonUtilities.swift:219-224 | Corrected peek: an element exactly for 0 <= index < count, and it is `a[index]`. |
| `Collections.PeekCheckedAgrees` | ProjectUtilities/Classes/CommonUtilities.swift:219-224 | For every index >= 0, the original and the corrected peek agree. |
| `Collections.RangeIntToRangeStringIndex` | ProjectUtilities/Classes/CommonUtilities.swift:1218-1224 | The call traps exactly when the lower bound is negative and the upper bound is within the string. Otherwise it gives a range exactly when upper <= count, with the same bounds. |
| `Collections.RangeNegativeLowerBoundTraps` | ProjectUtilities/Classes/CommonUtilities.swift:1219-1223 | The range -1..<2 on "abc" traps. |
| `Collections.RangeIntToRangeStringIndexChecked` | ProjectUtilities/Classes/CommonUtilities.swift:1218-1224 | Corrected conversion: a range exactly when 0 <= lower and upper <= count. It keeps both bounds. |
| `Collections.RangeCheckedAgrees` | ProjectUtilities/Classes/CommonUtilities.swift:1218-1224 | For a non-negative lower bound, the original and the corrected conversion agree. |
| `Collections.HasElementsIffFirstPeekable` | ProjectUtilities/Classes/CommonUtilities.swift:1057-1065 | `hasElements()` is the negation of `nilOrEmptyCollection()` (which `isArrayNilOrEmpty` repeats). It holds exactly when the collection is present and its first element can be peeked. |
| `Observable.Fired` | ProjectUtilities/Classes/CommonUtilities.swift:757 | `listener?(v)` makes one call, with `v`, when a listener is set, and none otherwise. |
| `Observable.Dynamic.constructor` | ProjectUtilities/Classes/CommonUtilities.swift:766-768 | The box holds `v` and has no listener. No listener is called. |
| `Observable.Dynamic.Bind` | ProjectUtilities/Classes/CommonUtilities.swift:751-753 | `bind` replaces the listener without calling anything. The value is unchanged. |
| `Observable.Dynamic.BindAndFire` | ProjectUtilities/Classes/CommonUtilities.swift:755-758 | `bindAndFire` replaces the listener and calls it once with the current value. With `nil` it calls nothing. |
| `Observable.Dynamic.SetValue` | ProjectUtilities/Classes/CommonUtilities.swift:760-764 | Assigning `value` stores it and calls the current listener exactly once with the new value. With no listener, only the value changes. |
| `Observable.BindAssignFire` | ProjectUtilities/Classes/CommonUtilities.swift:747-769 | Bind, assign, bind-and-fire, assign: the calls are exactly (first, v), (second, v), (second, w), in that order. |
| `Network.RawValueInjective` | ProjectUtilities/Classes/NetworkLibrary.swift:5-9 | Different methods have different raw values. |
| `Network.QueryItems` | ProjectUtilities/Classes/NetworkLibrary.swift:40-48 | There is one item per non-nil parameter and none for nil ones. Each item is named by its key, no name repeats, and each value is the parameter's value. |
| `Network.SetHeaders` | ProjectUtilities/Classes/NetworkLibrary.swift:60-62 | Every resource header replaces the request's field of that name. All else is unchanged. |
| `Network.ApiRequest` | ProjectUtilities/Classes/NetworkLibrary.swift:28-107 | An unparsable base string or an unbuildable URL gives `failure(badRequest, nil)` and no task. Otherwise there is a task and no immediate callback. The path is overwritten, and nil parameters give no query items. Missing parameters leave the query items untouched. The request is the hook applied to (URL, raw method, body, Content-Type application/json), then the resource headers. For every resource header the final value is the resource's. |
| `Network.Complete` | ProjectUtilities/Classes/NetworkLibrary.swift:80-98 | The completion makes exactly one call, never both. Status 200 with a parse gives `success(result)`. Status 200 without a parse gives `failure(parsingFailed, data)`. Another status gives `failure(noSuccessStatusCode, parse(data))`. No HTTP response gives `failure(other(error), data)`. `badRequest` never comes from a completion. |
| `Network.ErrorOnlyMattersWithoutHttpResponse` | ProjectUtilities/Classes/NetworkLibrary.swift:82-94 | With an HTTP response, the transport's error does not affect the callback. |
| `Network.WithoutNils` | ProjectUtilities/Classes/NetworkLibrary.swift:114-119 | The keys are exactly the non-nil keys, and the values are unwrapped. |
| `Network.StripNils` | ProjectUtilities/Classes/NetworkLibrary.swift:114-119 | The loop builds exactly the dictionary without its nil entries. |
| `Network.EncodeJson` | ProjectUtilities/Classes/NetworkLibrary.swift:113-122 | The result is `nil` when no entry has a value. Otherwise it is the serialisation of the non-nil entries. |
| `Network.RawQueryString` | ProjectUtilities/Classes/NetworkLibrary.swift:126-131 | The string is "?" followed by "key=value" for each key once, in some order, with no separator. |
| `Network.GetQueryString` | ProjectUtilities/Classes/NetworkLibrary.swift:126-134 | The result is the percent-encoding of that string, or "" when encoding fails. An empty dictionary gives the encoding of "?". |
| `Network.PairsHaveNoSeparator` | ProjectUtilities/Classes/NetworkLibrary.swift:129-131 | When no key or value holds '&', the query holds none. |
| `Network.TwoPairsRunTogether` | ProjectUtilities/Classes/NetworkLibrary.swift:129-131 | a=1 then b=2 gives "?a=1b=2". |
| `Network.SeparatedQueryString` | ProjectUtilities/Classes/NetworkLibrary.swift:126-134 | Corrected query string: it starts with '?' and has '&' between pairs. |
| `Network.SeparatedQueryReadsBack` | ProjectUtilities/Classes/NetworkLibrary.swift:126-134 | In the corrected query, splitting after '?' on '&' gives the entries. Splitting an entry on '=' gives its key and value, when neither holds '&' or '='. |

## Findings

| source | as written | input that shows it | evidently intended | confidence | as-written member | corrected member |
|---|---|---|---|---|---|---|
| ProjectUtilities/Classes/CommonUtilities.swift:219-224 | `peekObjectAt` checks only `index < count` | any array, index -1: the subscript traps | a negative index gives `nil` like any other out-of-range index | high; not executed | `Collections.PeekObjectAt` (`Collections.PeekNegativeIndexTraps`) | `Collections.PeekObjectAtChecked` |
| ProjectUtilities/Classes/CommonUtilities.swift:1218-1224 | the guard bounds both ends by `count` only | "abc" with -1..<2: `index(_:offsetBy: -1)` traps | a negative lower bound gives `nil` | high; not executed | `Collections.RangeIntToRangeStringIndex` (`Collections.RangeNegativeLowerBoundTraps`) | `Collections.RangeIntToRangeStringIndexChecked` |
| ProjectUtilities/Classes/CommonUtilities.swift:1050-1054 | `onlyNonNilValues` is never read | self ["a": 1], dict ["a": nil], flag true: "a" becomes nil | with the flag set, nil entries are skipped | medium; not executed | `Collections.Merge` (`Collections.MergeStoresNil`) | `Collections.MergeNonNil` |
| ProjectUtilities/Classes/NetworkLibrary.swift:129-131 | pairs are appended with no '&' between them | ["a": "1", "b": "2"] gives "?a=1b=2" | "?a=1&b=2" | high; not executed | `Network.RawQueryString` (`Network.TwoPairsRunTogether`) | `Network.SeparatedQueryString` |

## Left out

- UIKit, Core Animation and drawing are not modelled. This covers fades, shake, bump, shimmer, gradients, badges, corners, alerts, table and scroll helpers, `topViewController`, `fixOrientation` and `iconWithName`. They render pixels and have no stateable result.
- `URLSession`, `task.resume()` and the asynchronous completion context are not modelled. A dispatched task is the request it sends. Its completion is `Complete`, applied to the data, response and error it receives.
- The `#if !ENV_PRODUCTION` debug printing is not modelled. It is a diagnostic side channel.
- URL parsing and building (`URLComponents`, `URL`) are parameters, not models. So `URL.appending`, `valueOf` and `queryParams`, which are built on them, are not modelled.
- `JSONSerialization` (`encodeJSON`'s serialisation and `decodeJSON`) is not modelled. It is foreign code; `serialize` and a resource's `parse` stand for it.
- Percent-encoding is not modelled; it is foreign code.
- `DateFormatter`/ISO 8601 and the `Calendar` split of an interval are not modelled. They are foreign code; the interval's components are an input, and dates are integer instants.
- `getUIColor` (`Scanner` hex parsing into `CGFloat` channels) is not modelled, for its floating-point channels.
- The `Double`/`Float`/`CGFloat` extensions are not modelled, for their floating-point arithmetic.
- `capturedGroups` and the HTML attributed-string parser are not modelled. They rely on `NSRegularExpression` and the HTML parser.
- The email validator is not modelled. Its regular expression's meaning depends on backtracking over '.' in the domain.
- The documents and cache directory lookups and the WhatsApp URL opening are not modelled. They are file-system and app I/O.
- Strings are sequences of characters. Swift counts grapheme clusters; that difference is not modelled.
- `Validators.IsValidNumber`: `\d` is read as the ASCII digits '0'-'9'. ICU's `\d` also matches other Unicode decimal digits. The same holds for the `\d` of `Validators.IsValidPassword`.
- `Abbreviation.AbbreviateNumber` uses exact integer division. The source divides `Double` values. The two agree for every n below 2^53, and may differ above, where `Double(intNumber)` is no longer exact.
- `Network.ApiRequest`: header names are compared exactly. `URLRequest` treats header field names case-insensitively.
- `Network.ApiRequest`: the `success` and `failure` closures are optional in the source. The model states the call the helper makes and assumes a handler is there to receive it.
- `Network.ApiRequest`: a parameter value is given as its `"\(value)"` spelling. `String(describing:)` itself is not modelled.
- `Network.GetQueryString`: the dictionary's keys and values are given already in their `"\(…)"` spelling. `String(describing:)` is not modelled, so how a value prints (an `Any?` prints as "Optional(1)") is not captured.
- `Network.RawQueryString`: keys and values are given in their `"\(…)"` spelling. `String(describing:)` is not modelled.
- `Observable.Dynamic.SetValue`: a listener that re-enters the box (assigns `value` or rebinds while being called) is not modelled. A listener is known only by its identity.
