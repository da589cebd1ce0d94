# detail_loader spider: ASIN-driven request generation

This project models the `detail_loader` Scrapy spider of the `amazon_us_demo`
crawler (`amazon_us_demo/amazon_us_demo/spiders/detail_loader.py`). The spider
reads product identifiers (ASINs) from text files and turns each valid one
into a request for its product page. It then stamps each page record produced
by an external parser with the ASIN taken from the response URL.

Modules:

- `Wrappers` (`wrappers.dfy`): `Option` and `Result`.
- `PyText` (`py_text.dfy`): the Python string builtins the spider relies on.
  These are `str.strip()` (`Strip`, built from `TrimStart` and `TrimEnd` over
  CPython's whitespace set), `str.isspace()` (`IsSpaceString`) and
  `str.lower()` (`Lower`).
- `AsinFormat` (`asin_format.dfy`): `_is_valid_asin` as `IsValidAsin`. The
  regular expression `[0-9]{9}[0-9Xx]{1}|[A-Z]{1}[0-9A-Z]{9}` is written as
  two sequences of character classes, and `MatchesPrefix` matches one of them
  at the start of a string the way `re.match` does: anchored at the start
  only.
- `AsinUrls` (`asin_urls.dfy`): `_generate_asin_url` as `GenerateAsinUrl`,
  which builds a `Request(url, referer)`, and `_extract_asin` as `ExtractAsin`.
  `ExtractAsin` searches for the greatest prefix length at which
  `.*www\.amazon\.com\/dp\/([0-9A-Z]{10}).*` matches. The leading `.*` is
  greedy and does not cross a newline.
- `DetailLoader` (`detail_loader.dfy`): the three argument checks of
  `start_requests` (`CheckArguments`), `_find_asin_files` (`FindAsinFiles`),
  the request loop (`StartRequests` and its loop `RequestsFromFiles`, against
  the specification function `ExpectedRequests`) and `parse` (`Parse`).

The marketplace-to-host table `MARKETPLACE_HOST_MAPPING` is a
`map<string, string>` parameter, because its contents are defined outside
this file. The filesystem is a `FileSystem` value of functions:

- how a path argument resolves (`os.path.abspath(os.path.expanduser(...))`);
- whether a path exists or is a regular file;
- what `os.walk` lists under a directory, in its order;
- the lines a file yields when iterated.

The code checks the path argument, then the lowercased marketplace, then
whether the resolved path exists (`detail_loader.py:25-40`); `CheckArguments`
follows this order. All three failures produce no request.

Two properties of the code are proved as lemmas rather than reported as
defects, because the code does not state its intent:

- `_extract_asin` looks only for `www.amazon.com`. A product page of another
  marketplace's host therefore yields an empty `asin` (`OtherHostNotExtracted`).
- The validator accepts a lower-case check character `x`, which the
  extraction class `[0-9A-Z]` rejects (`LowercaseCheckCharacterNotExtracted`).

## Model

| member | source | states |
|---|---|---|
| `PyText.IsSpaceString` | amazon_us_demo/amazon_us_demo/spiders/detail_loader.py:79 | definition of `isspace()`: non-empty and every character in CPython's whitespace set; used by `IsValidAsin` and characterised through `BlankGuardsImpliedByPattern` and `BlankIsInvalid` |
| `PyText.Strip` | amazon_us_demo/amazon_us_demo/spiders/detail_loader.py:46 | definition of `strip()` as `TrimEnd(TrimStart(s))`; characterised by `StripShape`, `StripEmptyIffBlank` and `StripIdempotent` |
| `PyText.TrimStartShape` | amazon_us_demo/amazon_us_demo/spiders/detail_loader.py:46 | the leading part `strip()` drops is whitespace; the kept suffix does not start with whitespace |
| `PyText.TrimEndShape` | amazon_us_demo/amazon_us_demo/spiders/detail_loader.py:46 | the trailing part `strip()` drops is whitespace; the kept prefix does not end with whitespace |
| `PyText.StripShape` | amazon_us_demo/amazon_us_demo/spiders/detail_loader.py:46 | a stripped line is a contiguous slice `s[i..j]` with whitespace only outside it, and it neither starts nor ends with whitespace |
| `PyText.StripEmptyIffBlank` | amazon_us_demo/amazon_us_demo/spiders/detail_loader.py:46 | a line strips to the empty string exactly when it is empty or all whitespace |
| `PyText.StripIdempotent` | amazon_us_demo/amazon_us_demo/spiders/detail_loader.py:46 | stripping twice is stripping once |
| `PyText.Lower` | amazon_us_demo/amazon_us_demo/spiders/detail_loader.py:31 | `lower()` keeps the length and lowercases each character |
| `PyText.LowerIdempotent` | amazon_us_demo/amazon_us_demo/spiders/detail_loader.py:31 | lowercasing twice is lowercasing once |
| `PyText.LowerHasNoUpper` | amazon_us_demo/amazon_us_demo/spiders/detail_loader.py:31 | the lowercased marketplace has no upper-case letter |
| `AsinFormat.IsValidAsin` | amazon_us_demo/amazon_us_demo/spiders/detail_loader.py:77-83 | definition of `_is_valid_asin`: non-empty, not `isspace()`, and the pattern matches at the start; characterised by `ValidAsinIff` |
| `AsinFormat.MatchesPrefixIff` | amazon_us_demo/amazon_us_demo/spiders/detail_loader.py:79 | `re.match` of a class pattern holds exactly when the string is at least as long as the pattern and each leading character is in its class |
| `AsinFormat.ValidAsinIff` | amazon_us_demo/amazon_us_demo/spiders/detail_loader.py:77-83 | a token is valid exactly when it has at least 10 characters and its first 10 are nine digits then `[0-9Xx]`, or `[A-Z]` then nine of `[0-9A-Z]` |
| `AsinFormat.BlankGuardsImpliedByPattern` | amazon_us_demo/amazon_us_demo/spiders/detail_loader.py:78-79 | the non-empty and not-`isspace()` guards add nothing to the pattern: valid exactly when the pattern matches |
| `AsinFormat.BlankIsInvalid` | amazon_us_demo/amazon_us_demo/spiders/detail_loader.py:79 | an empty or whitespace-only token is never valid |
| `AsinFormat.OnlyFirstTenMatter` | amazon_us_demo/amazon_us_demo/spiders/detail_loader.py:79 | anything may follow a valid token; validity is that of the 10-character prefix |
| `AsinFormat.ValidExamples` | amazon_us_demo/amazon_us_demo/spiders/detail_loader.py:79 | `B000123456`, `123456789X` and `123456789x` are valid |
| `AsinFormat.InvalidExamples` | amazon_us_demo/amazon_us_demo/spiders/detail_loader.py:79 | `bad` and `b000123456` are invalid |
| `AsinFormat.LongerTokenExample` | amazon_us_demo/amazon_us_demo/spiders/detail_loader.py:79 | `B000123456-extra` is valid because the match is not anchored at the end |
| `AsinUrls.GenerateAsinUrl` | amazon_us_demo/amazon_us_demo/spiders/detail_loader.py:85-94 | definition of `_generate_asin_url`; characterised by `GenerateAsinUrlShape`, `DetailUrlRoundTrip` and `GenerateAsinUrlInjective` |
| `AsinUrls.GenerateAsinUrlShape` | amazon_us_demo/amazon_us_demo/spiders/detail_loader.py:85-89 | url is `https://<host>/dp/` then the ASIN; referer is `https://<host>/s/ref=nb_sb_noss_2?url=search-alias=aps&field-keywords=` then the ASIN (prefix, length and suffix) |
| `AsinUrls.DetailUrlAsin` | amazon_us_demo/amazon_us_demo/spiders/detail_loader.py:86-87 | the inverse of URL construction: it returns something exactly when the URL starts with `https://<host>/dp/`, and the URL is that prefix plus the result |
| `AsinUrls.DetailUrlRoundTrip` | amazon_us_demo/amazon_us_demo/spiders/detail_loader.py:86-87 | the ASIN is read back from the URL built for it |
| `AsinUrls.GenerateAsinUrlInjective` | amazon_us_demo/amazon_us_demo/spiders/detail_loader.py:86-89 | distinct ASINs give distinct URLs and distinct referers on one marketplace |
| `AsinUrls.LastMatchAtOrBelow` | amazon_us_demo/amazon_us_demo/spiders/detail_loader.py:60 | the greedy `.*` settles on the greatest prefix length at which the pattern matches, or on none when no length matches |
| `AsinUrls.ExtractAsin` | amazon_us_demo/amazon_us_demo/spiders/detail_loader.py:59-61 | empty exactly when the pattern matches nowhere; otherwise 10 characters of `[0-9A-Z]` following the rightmost matching marker, with no newline before it |
| `AsinUrls.ExtractAfterScheme` | amazon_us_demo/amazon_us_demo/spiders/detail_loader.py:59-61 | a URL made of `https://`, `www.amazon.com/dp/` and ten characters of `[0-9A-Z]` yields exactly these ten characters |
| `AsinUrls.ExtractExample` | amazon_us_demo/amazon_us_demo/spiders/detail_loader.py:60-61 | `https://www.amazon.com/dp/B000123456` yields `B000123456` |
| `AsinUrls.ExtractGeneratedUrl` | amazon_us_demo/amazon_us_demo/spiders/detail_loader.py:59-61 | on host `www.amazon.com`, extraction recovers an ASIN of 10 `[0-9A-Z]` characters from its generated URL |
| `AsinUrls.NoMatchBeforeHost` | amazon_us_demo/amazon_us_demo/spiders/detail_loader.py:60 | in an `https://` URL no match starts inside the scheme |
| `AsinUrls.LowercaseCheckCharacterNotExtracted` | amazon_us_demo/amazon_us_demo/spiders/detail_loader.py:60 | the valid ASIN `123456789x` is not recovered from its own URL |
| `AsinUrls.OtherHostNotExtracted` | amazon_us_demo/amazon_us_demo/spiders/detail_loader.py:60 | a product page on `www.amazon.co.uk` yields the empty string |
| `DetailLoader.MarketplaceKey` | amazon_us_demo/amazon_us_demo/spiders/detail_loader.py:31 | definition of the lookup key: the argument, or `us` when absent, lowercased; characterised by `MarketplaceDefaultAndCase` and `LowerHasNoUpper` |
| `DetailLoader.CheckArguments` | amazon_us_demo/amazon_us_demo/spiders/detail_loader.py:25-40 | each of the three configuration errors is reported exactly under its condition and in the code's order; the result is `Ok` exactly when all three checks pass, carrying the lowercased key (present in the host table) and the resolved path |
| `DetailLoader.MarketplaceDefaultAndCase` | amazon_us_demo/amazon_us_demo/spiders/detail_loader.py:31-32 | leaving the marketplace out, passing `us` and passing `US` give the same requests |
| `DetailLoader.Join` | amazon_us_demo/amazon_us_demo/spiders/detail_loader.py:71 | definition of `posixpath.join` for two arguments: an absolute name replaces the directory, otherwise a `/` separates them unless the directory is empty or ends with one; characterised by `JoinShape` |
| `DetailLoader.JoinShape` | amazon_us_demo/amazon_us_demo/spiders/detail_loader.py:71 | `os.path.join` ends with the file name, starts with the directory unless the name is absolute, and is the name itself when it is absolute; exactly one `/` is inserted after a non-empty directory not ending in `/`, and none otherwise |
| `DetailLoader.JoinAllShape` | amazon_us_demo/amazon_us_demo/spiders/detail_loader.py:70-71 | one path per file name of a walked directory, the k-th being the directory joined with the k-th name |
| `DetailLoader.JoinAllMembers` | amazon_us_demo/amazon_us_demo/spiders/detail_loader.py:70-73 | a path is collected for a directory exactly when it is the directory joined with one of its file names |
| `DetailLoader.WalkedFilesMembers` | amazon_us_demo/amazon_us_demo/spiders/detail_loader.py:69-73 | a path is collected exactly when it is some walked directory joined with one of its file names |
| `DetailLoader.FindAsinFiles` | amazon_us_demo/amazon_us_demo/spiders/detail_loader.py:63-75 | returns `[path]` for a regular file and otherwise the walked files in walk order |
| `DetailLoader.StartRequests` | amazon_us_demo/amazon_us_demo/spiders/detail_loader.py:24-48 | no request on any configuration error; otherwise one request per valid stripped line, in file-then-line order |
| `DetailLoader.RequestsFromFiles` | amazon_us_demo/amazon_us_demo/spiders/detail_loader.py:43-48 | the nested loop emits exactly the requests for the valid identifiers of the files, in order |
| `DetailLoader.ValidAsinsAppend` | amazon_us_demo/amazon_us_demo/spiders/detail_loader.py:45-47 | line filtering distributes over concatenation of line lists |
| `DetailLoader.FileAsinsOfAllLines` | amazon_us_demo/amazon_us_demo/spiders/detail_loader.py:43-47 | going file by file gives the identifiers of all lines of all files, concatenated |
| `DetailLoader.InvalidLineSkipped` | amazon_us_demo/amazon_us_demo/spiders/detail_loader.py:46-47 | a line that is not a valid ASIN once stripped contributes nothing |
| `DetailLoader.ValidLineKept` | amazon_us_demo/amazon_us_demo/spiders/detail_loader.py:46-48 | a valid line contributes exactly its stripped text, in place |
| `DetailLoader.ValidAsinsCorrespondence` | amazon_us_demo/amazon_us_demo/spiders/detail_loader.py:45-48 | the k-th identifier is the stripped k-th valid line; positions strictly increase; a line is used exactly when valid |
| `DetailLoader.RequestCount` | amazon_us_demo/amazon_us_demo/spiders/detail_loader.py:43-48 | the number of requests equals the number of valid lines over all files |
| `DetailLoader.StripLineEnd` | amazon_us_demo/amazon_us_demo/spiders/detail_loader.py:46 | a line that neither starts nor ends with whitespace loses its line end and nothing else |
| `DetailLoader.TwoOfThreeLinesValid` | amazon_us_demo/amazon_us_demo/spiders/detail_loader.py:45-47 | of the lines `B000123456`, `bad`, `123456789X`, the first and third are kept, stripped |
| `DetailLoader.TwoOfThreeLines` | amazon_us_demo/amazon_us_demo/spiders/detail_loader.py:42-48 | a file with `B000123456`, `bad` and `123456789X` gives exactly two requests, for the first and third lines |
| `DetailLoader.Parse` | amazon_us_demo/amazon_us_demo/spiders/detail_loader.py:50-57 | a parser failure emits nothing; on success the record keeps every parsed field and sets `asin` to the ASIN extracted from the response URL |
| `DetailLoader.ParseExample` | amazon_us_demo/amazon_us_demo/spiders/detail_loader.py:54 | a successful parse of `https://www.amazon.com/dp/B000123456` records `asin` = `B000123456` |

## Left out

- Logging (the critical, info, debug and exception messages) is not modelled. Only its effect is: nothing is emitted.
- `scrapy.Request`, scheduling and HTTP transport are not modelled. A request is the plain value `Request(url, referer)`.
- The generator's laziness is not modelled. `StartRequests` returns the whole sequence of requests it would yield, in order.
- The nested loop of `start_requests` is verified as the separate method `RequestsFromFiles`, called after the checks; otherwise it is the same loop.
- Path resolution (`abspath`, `expanduser`), `exists`, `isfile` and the `os.walk` enumeration are parameters, because they depend on the OS and the current directory.
- File contents are a parameter, and the universal-newline splitting of a file into lines is not modelled.
- Any error raised while opening or reading a file (an open failure, a decoding error on a non-text file found by the walk) is not modelled. In the source it ends `start_requests` after the requests already yielded, and the remaining files are never read; the model reads every file.
- `DetailParser(response.text)` and its `parse()` are calls into an external library. Their outcome is a parameter: a field map, or `None` when either raised or when `parse()` returned something that is not a mapping (the `asin` assignment at :54 then raises `TypeError`, which the `except` at :56 catches). An error from `parse()` is caught and logged; the constructor runs outside the `try`, so its error propagates to the framework instead. Either way nothing is emitted, which is what `None` stands for. The parser's own field values are opaque.
- The contents of `MARKETPLACE_HOST_MAPPING` are not part of this model. The table is a parameter.
- `FIELDS_TO_EXPORT`, `allowed_domains`, `start_urls` and the unused `pdb` import are static settings with no behaviour.
- PyText.Lower: models only the ASCII case mapping, not the full Unicode `str.lower()`. The model differs only on arguments with non-ASCII characters whose lowercase form differs; for example, U+212A (KELVIN SIGN) lowercases to ASCII `k`, so such an argument may find a key in Python and not in the model.
