# Inside Airbnb pipeline: a Dafny model of its pure core

The pipeline has three steps:
- `extract_data.py` downloads the per-city files of a snapshot, files them by record type and decompresses them.
- `transform_data.py` reads each raw CSV, with a last-resort manual row repair. It cleans its fields with a per-record-type column policy and writes the result as `data/processed/{type}/{city}_{snapshot}_{type}.csv`.
- `load_gcp.py` uploads every processed file to a Hive-partitioned object name, `inside_airbnb/{type}/city={city}/snapshot_date={snapshot}/{file}`.

This project models the logic of these steps that involves no I/O:
- manual row repair;
- the text and price sanitizers;
- the column policy of listings, calendar and reviews;
- the naming conventions the three scripts share;
- the way each script's `main` selects and counts files.

It proves the properties these promise. Each model is written as pure functions over immutable data. A table is a header plus rows of optional strings (`None` is pandas' NaN). The cleaned table holds tagged cells: `Null`, `Text`, `Num` or `Time`.

Modules, leaves first:

- `Wrappers`: the `Option` type.
- `Seqs`: slicing and appending steps the loop and induction proofs use.
- `Strings`:
  - Python's `split`, `'sep'.join`, `strip`, `rstrip` and `lower`;
  - `str.isspace` as an explicit list of code points.
- `WordSplit`: Python's `split()` with no separator, and why whitespace runs of any length and kind separate the same words.
- `Paths`: `os.path.join`, `basename` and `dirname` on POSIX paths.
- `CsvRepair`: the row repair of `read_csv_manual`.
- `Sanitize`:
  - `remove_urls`, written as a left-to-right scan that matches what `re.sub` does with `https?://\S+|www\.\S+`;
  - `clean_text_field`;
  - `clean_price`.
- `CleanTextUrls`: the cleaned text holds no URL.
- `CleanTextLaws`, `PriceLaws`: laws about the two cleaners.
- `Tables`: the missing-token replacement and the column operations the transforms use.
- `Transform`, `TransformLaws`: the three record-type transforms, and what they do to each cell.
- `Naming`:
  - raw name, processed name, download URL;
  - subdirectory classification, name parsing, partition path.
- `Extract`: `download_file`, `extract_compressed_file` and the city loop of `main`.
- `Process`: the naming and dispatch part of `process_file`.
- `Load`: the selection, partition naming and counting of `load_gcp.main`.
- `Pipeline`: the name of one download, followed through extraction, processing and upload.

The model takes no I/O and calls no library parser. Each of these is a parameter:

- **The library parsers.** A `Parsers` value holds three abstract parsers, each returning `Option`:
  - Python's `float` (`clean_price`);
  - `pd.to_numeric(errors='coerce')`;
  - `pd.to_datetime(errors='coerce')`.
- **Table reading.** `process_file` receives the table `read_csv_safely` produced, or None when reading failed.
- **Saving.** It also receives whether `save_csv_with_proper_escaping` succeeded.
- **The clock.** The `processed_date` stamp is a string parameter.
- **The extract step's oracles.** `fetch(url)` stands for the HTTP request and `inflate(path)` for gzip decompression.
- **The load step's oracles.** `listing(type)` stands for the directory listing and `upload(local, gcs)` for the GCS upload.

Behaviour of the code that is easy to miss, and that the model keeps:

- **Padding.** Short repaired rows are padded with `''`, not with a null (`transform_data.py:116`).
- **A null `available`.** After `astype(str)` a null `available` value is the text `"nan"`, not a null (`transform_data.py:191`). So `available` can hold values other than "true", "false" and null.
- **Cleaning twice.** `clean_text_field` is not idempotent. Whenever a quote survives URL removal, a second cleaning doubles it again (`transform_data.py:46`, `CleanTextLaws.CleanTextIdempotentIff`). A quote inside a URL goes with the URL. So running the listings transform over its own output changes more than the stamp.
- **Clean-text order.** Quotes are doubled after URLs are removed and control characters replaced, and before whitespace is collapsed (`transform_data.py:37-49`).

## Model

| member | source | states |
|---|---|---|
| Strings.Split | transform_data.py:248 | `split` gives one more part than there are separators; no part holds the separator; joining the parts back gives the input |
| Strings.SplitConcat | load_gcp.py:45 | splitting `a + sep + b` is splitting `a` followed by splitting `b`, which is how the first parts of a name are read back |
| Strings.Strip | transform_data.py:49 | `strip()` returns a slice of the input with only whitespace cut at either end, and the result neither starts nor ends with whitespace |
| Strings.StripNonSpace | transform_data.py:49 | stripping keeps every non-space character, in order |
| Strings.StripTrimmed | transform_data.py:49 | text with no whitespace at either end is left as it is by `strip()` |
| Strings.RStrip | extract_data.py:24 | `rstrip('/')` leaves a prefix of the input that does not end in '/', and every character removed is a '/' |
| Strings.RStripIdempotent | extract_data.py:103 | stripping trailing slashes a second time changes nothing |
| Strings.Lower | extract_data.py:32 | `lower()` maps every character on its own, keeping the length |
| Strings.LowerIdempotent | transform_data.py:191 | lower-casing twice is lower-casing once |
| Paths.Basename | transform_data.py:245 | `os.path.basename` is the slash-free suffix of the path; a slash-free path is its own base name |
| Paths.PathJoin | extract_data.py:43 | `os.path.join` ends with its second argument; for a relative second argument and a non-empty first one without a trailing '/', it inserts exactly one '/' between them |
| Paths.BasenameOfJoin | extract_data.py:61 | the base name of `join(dir, name)` is `name` for a slash-free name |
| Paths.DirnameOfJoin | extract_data.py:62 | the directory of `join(dir, name)` is `dir` for a slash-free name |
| CsvRepair.SpanLength | transform_data.py:93-99 | an open quote span takes in the fields up to and including the first one that ends in a single, undoubled quote, or all remaining fields when none does |
| CsvRepair.ResumeRegroups | transform_data.py:89-110 | reading the row field by field, with the open span and its collected text as the only state, yields exactly the span-by-span regrouping |
| CsvRepair.ResumeSpan | transform_data.py:93-99 | an open span with collected text `cur` is emitted as one field, `cur` joined with ',' to the fields it takes in, and reading then resumes outside any span |
| CsvRepair.RegroupedKeepsLine | transform_data.py:89-110 | the span-by-span regrouping joins back with ',' to the same line, is never longer, is empty only for an empty row, and leaves a row without an opening field as it is |
| CsvRepair.MergeQuoteSpans | transform_data.py:89-110 | the merged row is the span-by-span regrouping: a field that does not open a span is kept, one that does is joined with ',' to the fields up to the first that closes it, and a span still open at the end is emitted; it joins back with ',' to the same line as the original row, is never longer, is empty only for an empty row, and is the row itself when no field opens a quote span; a span left open at the end of the row is kept |
| CsvRepair.FitToArity | transform_data.py:112-116 | exactly `n` fields: the first `n` of a longer row, or the row followed by `''` fields |
| CsvRepair.RepairRow | transform_data.py:86-116 | a repaired row always has the header's arity, a row that already has it is untouched, a row without an opening field is only truncated or padded, and the repaired row is a prefix of the original line followed by `''` padding; in every case it is the line regrouped into no more fields that join back to it, then cut to the header's arity or padded with `''`; a row of the wrong arity is exactly its span-by-span regrouping, cut or padded |
| CsvRepair.ReadManual | transform_data.py:79-120 | one output row per input row, each with the header's arity, rows of the right length unchanged, and every other row exactly its quote-span regrouping (`Regrouped`) cut or padded with `''` to the header's arity, which joins back to its own line in no more fields |
| Sanitize.UrlMatchIsWord | transform_data.py:28 | the URL pattern matches at a position exactly when the word starting there is `http://`, `https://` or `www.` followed by at least one character, and then it matches the whole word |
| Sanitize.RemoveUrls | transform_data.py:22-30 | removing URLs never lengthens the text |
| Sanitize.RemoveUrlsLeavesNone | transform_data.py:29 | after removal no position of the text starts a URL, even where removal joined two pieces |
| Sanitize.RemoveUrlsKeepsFree | transform_data.py:29 | text without URLs is returned unchanged |
| Sanitize.RemoveUrlsIdempotent | transform_data.py:29 | removing URLs twice is removing them once |
| Sanitize.RemoveUrlsKeepsSpace | transform_data.py:28-29 | every whitespace character survives, as often as it occurred |
| Sanitize.RemoveUrlWord | transform_data.py:28-29 | a URL word followed by whitespace or the end of the text is dropped whole |
| Sanitize.ReplaceControls | transform_data.py:43 | same length; each newline, carriage return and tab becomes a space, every other character is kept |
| Sanitize.ReplaceControlsNonSpace | transform_data.py:43 | the non-space content is unchanged |
| Sanitize.DoubleQuotesRoundTrip | transform_data.py:46 | doubling quotes loses nothing: reading `""` back as `"` gives the input |
| Sanitize.DoubleQuotesCounts | transform_data.py:46 | twice as many quotes, every other character as often as before |
| Sanitize.CollapseSpaces | transform_data.py:49 | `re.sub(r'\s+', ' ')`: empty exactly when the input is, only plain spaces as whitespace, never two whitespace characters in a row, starting with a space exactly when the input starts with whitespace, and splitting into the same words as the input |
| Sanitize.StripCollapse | transform_data.py:49 | collapsing then stripping gives the input's words joined by single spaces, Python's `" ".join(s.split())` |
| Sanitize.WordsOfControls | transform_data.py:43 | replacing newlines, carriage returns and tabs by spaces splits into the same words |
| Sanitize.DoubleQuotesOfControls | transform_data.py:43-46 | replacing those characters and doubling quotes give the same text in either order |
| WordSplit.WordsOfStrip | transform_data.py:49 | stripping keeps every word |
| WordSplit.CollapsedIsJoin | transform_data.py:49 | text with only single plain spaces and none at either end is its words joined by single spaces |
| Sanitize.CollapseNonSpace | transform_data.py:49 | collapsing keeps every non-space character, in order |
| Sanitize.CollapsedFixed | transform_data.py:49 | already collapsed text is unchanged |
| Sanitize.StripCollapsed | transform_data.py:49 | stripping collapsed text keeps it collapsed |
| Sanitize.CleanText | transform_data.py:32-51 | a cleaned value is the words of the URL-free, quote-doubled text joined by single spaces; so it has no newline, carriage return or tab, only plain spaces, no two whitespace characters in a row and no whitespace at either end |
| Sanitize.CleanTextKeepsClean | transform_data.py:32-51 | clean, URL-free text without quotes is a fixed point |
| Sanitize.CleanTextContent | transform_data.py:37-51 | the cleaned value holds exactly the non-space characters of the URL-free, quote-doubled text, so twice the quotes that survive URL removal |
| Sanitize.DropPriceSymbols | transform_data.py:59 | no '$' and no ',' remain |
| Sanitize.DropPriceSymbolsKeeps | transform_data.py:59 | every other character survives, as often as it occurred |
| Sanitize.PriceText | transform_data.py:59 | the text handed to `float` is a slice of the input with '$' and ',' removed, cut only by whitespace at either end; it has no '$', no ',' and no whitespace at either end, and holds exactly the input's other non-space characters, in order |
| Sanitize.CleanPrice | transform_data.py:53-62 | null gives NaN; an empty cleaned text gives NaN; otherwise the result is what the parser reads from the cleaned text, NaN when it cannot |
| CleanTextUrls.CleanTextUrlFree | transform_data.py:37-51 | whatever the input, no position of the cleaned value starts a URL: the steps after `remove_urls` never assemble a new one |
| CleanTextLaws.CleanTextNotIdempotent | transform_data.py:46 | when a quote survives URL removal, cleaning the cleaned value changes it again |
| CleanTextLaws.CleanTextIdempotentWithoutQuotes | transform_data.py:32-51 | when no quote survives URL removal, cleaning twice is cleaning once |
| CleanTextLaws.CleanTextIdempotentIff | transform_data.py:32-51 | cleaning is a fixed point on its own output exactly when no quote is left after URL removal |
| CleanTextLaws.QuoteWitnesses | transform_data.py:46 | a lone quote survives URL removal and cleaning it a second time changes it again; the empty text is a fixed point |
| CleanTextLaws.CleanTextQuotes | transform_data.py:46 | on text without URLs, the cleaned value holds exactly twice the input's quotes |
| CleanTextLaws.CleanAroundUrl | transform_data.py:40-49 | a URL word between two plain words is removed before the whitespace is collapsed: `x u y` cleans to `x y` |
| PriceLaws.CleanPriceIgnoresSymbols | transform_data.py:59 | removing '$' and ',' beforehand does not change the result |
| PriceLaws.CleanPriceOnlySymbols | transform_data.py:59-60 | a value made only of '$', ',' and whitespace is NaN, whatever the parser |
| PriceLaws.CleanPriceReads | transform_data.py:59-60 | text whose '$' and ',' drop away to leave a non-empty `t` without whitespace at either end is read as `t` |
| PriceLaws.CleanPriceGrouped | transform_data.py:59-60 | `"$" + a + "," + b` is read as `a + b` |
| PriceLaws.CleanPriceDecimal | transform_data.py:53-62 | with a decimal parser, `"$" a "," c "." f` for digit runs reads as the number `(a c).f` |
| PriceLaws.CleanPriceExample | transform_data.py:53-62 | "$1,200.50" reads as 1200.5 |
| PriceLaws.CleanPriceWord | transform_data.py:57-62 | with a decimal parser, a word such as "free" is NaN and nothing is raised |
| Tables.DropMissing | transform_data.py:125 | exactly the cells equal to '', 'N/A', 'NaN', 'null' or 'NULL' become null, every other cell is kept |
| Tables.MapByColumn | transform_data.py:139-140 | each cell is rewritten by its column's operation; header, row count and arity are kept |
| Tables.Rename | transform_data.py:171-172 | `rename(columns={from: to})`: every column called `from` is called `to`, every other name and the order are kept |
| Tables.SetColumn | transform_data.py:159 | setting a column keeps the header when the column exists and appends it otherwise |
| Tables.SetColumnCells | transform_data.py:159 | every cell of the set column holds the value; every other cell is unchanged |
| Transform.CleanTextValue | transform_data.py:34-35 | `clean_text_field` keeps a null null |
| Transform.PriceCell | transform_data.py:153-154 | a price cell is null or a number; it is the number `x` exactly when `clean_price` gives `x`, and null when `clean_price` gives NaN |
| Transform.NumericCell | transform_data.py:156 | null or the number the parser reads; a null whenever the parser fails |
| Transform.DatetimeCell | transform_data.py:213-214 | null (NaT) or the timestamp the parser reads; NaT whenever the parser fails |
| Transform.AvailableText | transform_data.py:190-192 | null becomes "nan"; "t" becomes "true" and "f" "false", in any case; anything else is its lower-case form; the result is never "t" or "f" |
| Transform.AvailableCell | transform_data.py:178-192 | `available` is always text and never "t" or "f": "nan" for a null; otherwise the cleaned value lower-cased, with "t" spelled "true" and "f" "false" |
| Transform.TransformListings | transform_data.py:122-161 | fails exactly on a duplicated declared column; otherwise keeps the row count and arity and the header, with `processed_date` appended when it was not there |
| Transform.TransformCalendar | transform_data.py:163-195 | fails exactly on a duplicated declared column; otherwise the header is the raw header with `date` renamed to `calendar_date` and no column is added |
| Transform.TransformReviews | transform_data.py:197-216 | fails exactly on a duplicated declared column; otherwise the header is the raw header with `date` renamed to `review_date` and no column is added |
| TransformLaws.ListingListsDisjoint | transform_data.py:128-149 | no listings column is in both the text list and the numeric list |
| TransformLaws.ListingCellPolicy | transform_data.py:125-156 | missing tokens are null; any other value of a text column is its cleaned text; numeric columns are null or numbers; `price` is a number exactly when `clean_price` reads one, and then that number; other numeric columns are numbers exactly when the parser succeeds; undeclared columns keep their value |
| TransformLaws.ListingsCells | transform_data.py:122-161 | every raw column keeps its place and gets its policy; `processed_date` holds the stamp in every row, whether it was overwritten or appended |
| TransformLaws.CalendarAvailablePolicy | transform_data.py:189-192 | `available` is text and never "t" or "f"; a missing value reads "nan"; any other value is its cleaned text, normalised |
| TransformLaws.CalendarTextPolicy | transform_data.py:175-178 | `listing_id` is null for a missing token and cleaned text otherwise |
| TransformLaws.CalendarNumericPolicy | transform_data.py:181-187 | numeric calendar columns are null for a missing token and otherwise null or numbers; `price` and `adjusted_price` are numbers exactly when `clean_price` reads one, and then that number; the others are numbers exactly when the parser succeeds |
| TransformLaws.CalendarOtherPolicy | transform_data.py:163-195 | undeclared calendar columns keep their value, with missing tokens as nulls |
| TransformLaws.CalendarDateColumn | transform_data.py:170-178 | after the rename no column is called `date`, so the `date` entry of the text list never applies; the raw `date` column comes out as `calendar_date` with only the missing tokens replaced |
| TransformLaws.CalendarCells | transform_data.py:163-195 | every other calendar column keeps its name and place and gets its policy |
| TransformLaws.ReviewCellPolicy | transform_data.py:200-214 | missing tokens are null; any other value of a text column is its cleaned text; `review_date` is NaT or a timestamp, a timestamp exactly when the parser succeeds; other columns keep their value |
| TransformLaws.ReviewsCells | transform_data.py:197-216 | the raw `date` column comes out as `review_date` read as a timestamp; every other column keeps its name and gets its policy |
| TransformLaws.AvailableIgnoresCase | transform_data.py:191 | the normalisation depends only on the lower-cased value |
| TransformLaws.AvailableIdempotent | transform_data.py:190-192 | normalising a normalised value changes nothing |
| Naming.ParseName | transform_data.py:245-250 | city and snapshot exist exactly when the name holds a '_'; both are '_'-free, the name starts with `city_snapshot`, and that prefix is followed by '_' or the end of the name, so each is a whole part |
| Naming.RawNameParses | transform_data.py:248-250 | the transform step reads back the city and snapshot the download step wrote into a raw name |
| Naming.DownloadUrl | extract_data.py:24 | the URL starts with the base URL without trailing slashes and `/{snapshot}/data/`, ends with `/data/{filename}`, and is exactly as long as those pieces together |
| Naming.DownloadUrlStripped | extract_data.py:103 | stripping the base URL before `download_file` strips it again changes nothing |
| Naming.Classify | extract_data.py:31-39 | the subdirectory is the first of listings, calendar, reviews that occurs in the lower-cased name, else "other", in both directions |
| Naming.ClassifyIgnoresCase | extract_data.py:32-37 | names that agree when lower-cased are filed alike |
| Naming.PartitionPath | load_gcp.py:45-51 | a partition exists exactly for names with at least three `_`-parts; it lies under `inside_airbnb/{type}/city=` and ends with the whole file name |
| Naming.PartitionPathParsed | load_gcp.py:45-51 | the partition path is `inside_airbnb/{type}/city={city}/snapshot_date={snapshot}/{file}` for the city and snapshot `process_file` would read from the name |
| Naming.ProcessedNameRoundTrip | load_gcp.py:45-51 | a processed name for '_'-free city and snapshot has at least three parts; parsing it gives the city and snapshot back; its partition path uses exactly them |
| Extract.LocalRawPathShape | extract_data.py:43 | a download is saved as `data/raw/{subdir}/{city}_{snapshot}_{filename}` |
| Extract.SubdirDir | extract_data.py:43 | every subdirectory is a plain name directly under `data/raw` |
| Extract.DownloadFile | extract_data.py:22-54 | the local path comes back exactly when the request for the download URL succeeds, and None otherwise |
| Extract.ExtractCompressed | extract_data.py:56-86 | a path not ending in `.gz` comes back unchanged; a `.gz` path gives a path exactly when decompression succeeds |
| Extract.ExtractInSubdir | extract_data.py:58-70 | `data/raw/{subdir}/{name}.gz` is decompressed to `data/raw/{subdir}/{name}` |
| Extract.DownloadThenExtract | extract_data.py:58-70 | a downloaded `.gz` file ends up in the same subdirectory under its raw name without the suffix |
| Extract.DownloadPlain | extract_data.py:86 | any other download is passed on under its raw path |
| Extract.GzOfRawName | extract_data.py:58 | a raw name ends in `.gz` only when the downloaded file name does |
| Extract.CityFiles | extract_data.py:108-114 | a city contributes at most one file per listed name |
| Extract.FileOutcome | extract_data.py:109-113 | a listed file yields a path only when the request for its download URL succeeded |
| Extract.CityFilesSound | extract_data.py:108-114 | every path a city contributes is the outcome of one of its listed files whose download and extraction both succeeded |
| Extract.CityFilesComplete | extract_data.py:108-114 | every listed file whose download and extraction both succeed is contributed |
| Extract.PresentSound | extract_data.py:112-114 | a collected path comes from a position where an outcome was present |
| Extract.PresentComplete | extract_data.py:112-114 | every present outcome is collected |
| Extract.ExtractMain | extract_data.py:88-117 | None exactly when the snapshot is missing or empty; otherwise the extracted paths of every accepted entry, in order, at most one per listed file |
| Extract.RejectedContributesNothing | extract_data.py:101-106 | an entry without a name or without a base URL adds nothing, wherever it stands |
| Process.ApplyTransform | transform_data.py:256-265 | each known record type selects its transform; an unknown type gives None |
| Process.ProcessFile | transform_data.py:242-282 | None when the base name has no second `_`-part, the read fails, the type is unknown, the transform fails or the save fails, and only then; otherwise the output path from the first two parts and the transformed table |
| Process.OutputPathShape | transform_data.py:268-269 | the output is `data/processed/{type}/{city}_{snapshot}_{type}.csv`, with that base name and directory |
| Process.ParsedPlain | transform_data.py:245-250 | the city and snapshot read from a base name contain no '/' |
| Process.ProcessThenLoad | transform_data.py:268-269 | the processed file lies in `data/processed/{type}`; its name parses back to the input's city and snapshot; the load step files it under exactly that partition |
| Load.UploadOf | load_gcp.py:41-51 | an upload keeps the listed file name and goes to that name's partition path |
| Load.Candidates | load_gcp.py:39-56 | at most one upload per listed file |
| Load.CandidatesSound | load_gcp.py:39-56 | only `.csv` files with at least three `_`-parts are uploaded, each to its partition |
| Load.CandidatesComplete | load_gcp.py:39-56 | every `.csv` file with at least three `_`-parts is uploaded |
| Load.PlanOnlyEligible | load_gcp.py:35-56 | across record-type directories, every attempted upload is of an eligible file, to the partition of its own type |
| Load.Successes | load_gcp.py:53-54 | the count of successful uploads never exceeds the attempts |
| Load.SuccessesExtremes | load_gcp.py:53-54 | the count equals the attempts when every upload succeeds and is zero when none does |
| Load.LoadMain | load_gcp.py:28-58 | nothing is attempted without `data/processed`; otherwise the planned uploads are attempted in order, and `uploaded_count` is the number that returned True |
| Pipeline.ExtractedParses | transform_data.py:245-250 | the decompressed file of a `.gz` download parses back to the city and snapshot it was downloaded for |
| Pipeline.ProcessedUploaded | load_gcp.py:40-51 | a processed file is a `.csv` with at least three parts, uploaded under the city and snapshot it was processed for |
| Pipeline.NamesSurviveThePipeline | transform_data.py:245-269 | from the download of `{filename}.gz` for a city and snapshot, through extraction and processing, to the upload: the file ends up in `city={city}/snapshot_date={snapshot}` |

## Left out

- Tiers 1 and 2 of `read_csv_safely` and the `csv.reader` tokenizer are pandas and `csv` library parsing. The model starts from an already split header and rows; `process_file` receives the read table as a parameter.
- `float`, `pd.to_numeric` and `pd.to_datetime` are abstract parsers. No IEEE arithmetic and no date formats are modelled. `PriceLaws` uses a plain decimal reader for digit-and-point text, under which `CleanPriceExample` reads "$1,200.50" as 1200.5.
- `save_csv_with_proper_escaping` and its `to_csv` quoting are library behaviour. Only its success flag is modelled.
- `datetime.now().strftime(...)` is a stamp parameter.
- The network request, gzip decompression, file writes, `os.makedirs`, `os.listdir` and `os.path.exists` are not modelled, and neither are YAML loading, the GCS client and logging. Each is an oracle parameter or is left out.
- The directory walk of `transform_data.main` and `ensure_directories` are not modelled: they are directory bookkeeping around `process_file`.
- Strings.Lower: lower-cases ASCII letters only. Python's `lower()` also folds non-ASCII letters.
- Extract.ExtractMain: assumes each configuration value has the type the code expects. A YAML `name` or `snapshot` that is not a string, and an explicit null `base_url` (on which `rstrip` raises), are not modelled.
- Transform.TransformListings: the cell operations start from text or null cells, as the read step produces them. `str()` of an already typed value, and pandas' own type inference on reading, are not modelled.
- Transform.TransformListings: a duplicated declared column is a failure for every table. With pandas, a table without rows may not raise, and this model still reports a failure.
- Transform.TransformCalendar: the same holds for a duplicated declared calendar column in a table without rows.
- Transform.TransformReviews: the same holds for a duplicated declared reviews column in a table without rows.
- Transform.DatetimeCell: reads each value on its own. `pd.to_datetime` on a whole column may infer one format from the first value and turn values in another format into NaT; a per-value parser cannot say that, so `TransformLaws.ReviewCellPolicy`'s "a timestamp exactly when the parser succeeds" holds for a parser that reads each value independently.
- CleanTextLaws.CleanAroundUrl: covers one URL word between two single words that contain no 'h' or 'w'. A tail of several words after the URL is not covered by this lemma; `Sanitize.CleanText` states the general result in terms of the URL-free text.
- Concurrency: the scripts process files one after another.
