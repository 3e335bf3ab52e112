# Pagon Logger, modelled in Dafny

A model of `Pagon\Logger` (lib/Pagon/Logger.php), a small PHP logger. A
logger is built from an options array (`file`, `auto_write`, `format`) merged
over defaults. `log($text, $level)` turns a message into one line: it scans
the format for `$identifier` placeholders, fills a record with the text and the
level name (centre-padded to eight characters when the format mentions
`$level`), adds the time and the per-instance token only when the format
mentions `$time` or `$token`, renames each key `k` to `$k`,
and substitutes the record into the format with `strtr`. The line is pushed
onto a queue that all loggers share. With `auto_write`, `write()` is called at
once: it drains the queue in order and appends each line and a newline to the
file. The five level methods (`debug` … `critical`) reach `log` through
`__call`. The text they log is chosen by the shape of the second argument:
nothing, an array of pairs (`strtr`), a string (`vsprintf`), or anything else.

Modules:

- `Php` (php.dfy): PHP values, string and boolean conversion, array union.
- `StringTranslate` (strtr.dfy): `strtr` with an array of pairs, and its
  algebra. It is a single left-to-right pass, the longest key wins, and
  replaced text is never rescanned.
- `Template` (template.dfy): the level table and `array_search`, the
  `\$(\w+)` scan, `str_pad(…, STR_PAD_BOTH)`, the providers, the record,
  the renamed table and the formatted line.
- `LineProperties` (lines.dfy): what a formatted line looks like. Provided
  placeholders are replaced, others are copied, the default format is worked
  out in full, and the `$texts` prefix quirk is covered.
- `Logging` (logger.dfy): the shared queue, the file system, and the
  `Logger` class with `Log`, `Write` and `Call`. `Log` runs its loops
  imperatively: the fill loop, the key-renaming loop and the draining loop
  are `while` loops proved against the functions above.

Three consequences of the code are worth stating plainly:

- Options the caller passes that have no default are kept, because array
  union keeps them.
- A second argument that is neither an array nor a string, such as the `7` in
  `error("value is %d", 7)`, makes `__call` log the first argument verbatim.
  It is not formatted.
- `log` has no error path for a level outside the five. PHP reads a missing
  array key there, which raises a notice or warning, not an exception. The
  model makes a valid level a precondition of `Log`.

## Model

| member | source | states |
|---|---|---|
| Php.ToStr | lib/Pagon/Logger.php:105 | Definition: PHP's string cast of a value, as `strtr` applies it to an array's values: `null`/`false` give "", `true` gives "1", an int its decimal digits, an array "Array" |
| Php.Truthy | lib/Pagon/Logger.php:80 | Definition: PHP's boolean conversion, as the `auto_write` test applies it |
| Php.Union | lib/Pagon/Logger.php:37 | The merged array has every key of either side; the caller's value wins where both have the key; the default fills in otherwise |
| Logging.MergedOptions | lib/Pagon/Logger.php:16-20 | Merged options hold the caller's value for every key supplied, `app.log`, `true` and `[$time] $token - $level - $text` for `file`, `auto_write` and `format` when omitted, and keep extra caller keys |
| Logging.Logger.constructor | lib/Pagon/Logger.php:35-37 | The logger's options are the caller's options united with the defaults; the token, queue and file system are the given ones |
| Template.LevelName | lib/Pagon/Logger.php:58 | Definition: the level number indexes the table of five names |
| Template.LevelIndex | lib/Pagon/Logger.php:111 | Definition: `array_search` of a name in the table of five names |
| Template.IndexOf | lib/Pagon/Logger.php:111 | `array_search` finds an index exactly when the name is present, and it is the first index holding that name |
| Template.LevelIndexOfName | lib/Pagon/Logger.php:28 | Each of the five level names maps back to its own level number |
| Template.IsWordChar | lib/Pagon/Logger.php:60 | Definition: PCRE's `\w` without the `u` modifier in the C locale: an ASCII letter, digit or `_` |
| Template.WordRun | lib/Pagon/Logger.php:60 | The greedy `\w+` run is a word, and it stops at the end or at a non-word character |
| Template.WordRunIs | lib/Pagon/Logger.php:60 | Any maximal word prefix is the greedy run, so the run is unique |
| Template.Placeholders | lib/Pagon/Logger.php:60 | Every captured identifier is a non-empty `\w` word |
| Template.PlaceholdersSplit | lib/Pagon/Logger.php:60 | The scan of `a + b` is the scan of `a` followed by the scan of `b` when `b` starts with a non-word character |
| Template.PlaceholderHead | lib/Pagon/Logger.php:60 | `$id` followed by a non-word character is captured as exactly `id` |
| Template.PlaceholderFound | lib/Pagon/Logger.php:60 | Any delimited `$id` anywhere in the format is among the captured identifiers |
| Template.Pad | lib/Pagon/Logger.php:46 | `str_pad` both sides: a string of at least the width is unchanged; a shorter one sits at offset floor((width - len)/2) in a field of exactly the width, with spaces everywhere else |
| Template.LevelPadding | lib/Pagon/Logger.php:46 | Each of the five names pads to the given eight-character string (` debug  `, `  info  `, `warning `, ` error  `, `critical`) |
| Template.Providers | lib/Pagon/Logger.php:39-47 | Definition: `time` and `token` give plain values, `level` is the one-argument padding transformer |
| Template.Record | lib/Pagon/Logger.php:58 | Definition: the record starts with the text and the level name |
| Template.Provide | lib/Pagon/Logger.php:63-69 | Definition: one loop turn: a name without a provider is skipped, a plain value overwrites the key, the transformer rewrites the key's current value |
| Template.Fill | lib/Pagon/Logger.php:62-70 | Definition: the loop turn applied to each scanned identifier in order, duplicates included |
| Template.Dollar | lib/Pagon/Logger.php:73-76 | Definition: every key `k` renamed to `$k`, its value kept |
| Template.Table | lib/Pagon/Logger.php:58-76 | Definition: the record filled over the scanned identifiers, then renamed |
| Template.FormatLine | lib/Pagon/Logger.php:58-78 | Definition: `strtr` of the format over the table built from the format's own placeholders |
| Template.ProvideStep | lib/Pagon/Logger.php:62-69 | One loop turn keeps the record in shape: text, level field, and time and token exactly when the format names them; re-padding a padded level is a no-op |
| Template.FillContents | lib/Pagon/Logger.php:58-70 | After the loop the record holds the text, the level (padded iff the format names `$level`), and time and token exactly when the format names them, and no other key |
| Template.DollarAt | lib/Pagon/Logger.php:73-76 | Every record key `k` is in the renamed map as `$k` with its value |
| Template.DollarKey | lib/Pagon/Logger.php:73-76 | Every renamed key is `$` followed by a record key |
| Template.DollarContents | lib/Pagon/Logger.php:73-76 | The renamed map holds `$k` for each key `k` with the same value, and nothing else |
| Template.OptionalPair | lib/Pagon/Logger.php:73-76 | A record key present exactly when the format names it is renamed under the same condition, with the same value |
| Template.TableContents | lib/Pagon/Logger.php:58-76 | The pairs given to `strtr` are `$text`, `$level`, and `$time` and `$token` exactly when the format names them, with the providers' values; nothing else |
| Logging.DollarAdd | lib/Pagon/Logger.php:73-76 | Renaming a record with one more key adds exactly the pair `$k`, leaving the others |
| Logging.RenameKeys | lib/Pagon/Logger.php:73-76 | The renaming loop produces exactly the renamed map of the record |
| Logging.FillMessage | lib/Pagon/Logger.php:62-70 | The loop over the matches produces the record the providers define, visiting identifiers in order |
| Logging.FormatMessage | lib/Pagon/Logger.php:58-78 | The line `log` builds is the format line of the format, text, level name, time and token |
| StringTranslate.Strtr | lib/Pagon/Logger.php:78 | Definition: one left-to-right pass; the longest non-empty key at the current position is replaced and the pass resumes after it, otherwise one character is copied |
| StringTranslate.LongestKey | lib/Pagon/Logger.php:78 | The chosen key is in the table, and no longer prefix of the subject is |
| StringTranslate.NoKeyAtHead | lib/Pagon/Logger.php:78 | Where no key starts, the character is copied and the pass moves on by one |
| StringTranslate.KeyAtHead | lib/Pagon/Logger.php:78 | A key at the head with no longer key there is replaced and the pass resumes after it, never rescanning the value |
| StringTranslate.LiteralPrefix | lib/Pagon/Logger.php:78 | Characters that no key starts with are copied unchanged |
| StringTranslate.EmptyTable | lib/Pagon/Logger.php:78 | With no pairs the subject is returned unchanged |
| StringTranslate.NoOccurrence | lib/Pagon/Logger.php:105 | With one pair, a subject in which the key never occurs is returned unchanged |
| StringTranslate.SingleOccurrence | lib/Pagon/Logger.php:105 | With one pair whose key occurs exactly once, that occurrence is replaced by the value and everything else is copied |
| StringTranslate.Split | lib/Pagon/Logger.php:78 | Where no key straddles a cut, the pass over the whole is the two passes concatenated |
| LineProperties.KnownPlaceholder | lib/Pagon/Logger.php:60-78 | Each delimited `$text`, `$level`, `$time`, `$token` anywhere in a format is replaced by its value, the level padded to eight |
| LineProperties.UnknownPlaceholder | lib/Pagon/Logger.php:63 | A delimited `$id` without a provider, with no provided name as its prefix, is copied verbatim |
| LineProperties.PiecesScan | lib/Pagon/Logger.php:60 | A format made of literal pieces and delimited placeholders is scanned to exactly its placeholder identifiers |
| LineProperties.PiecesStrtr | lib/Pagon/Logger.php:78 | Such a format is substituted piece by piece: literals copied, each placeholder replaced by its pair or copied |
| LineProperties.PiecesResolved | lib/Pagon/Logger.php:58-76 | Under the logger's table every placeholder piece has its value or no key is a prefix of it, and its substitution is its value |
| LineProperties.FormatOfPieces | lib/Pagon/Logger.php:58-78 | The formatted line of such a format is the concatenation of the literals and the placeholder values, with no rescanning of inserted values |
| LineProperties.DefaultLine | lib/Pagon/Logger.php:19 | The default format yields `[time] token - LEVEL - text` with the eight-wide level, whatever `$…` the text itself contains |
| LineProperties.PrefixInside | lib/Pagon/Logger.php:78 | A key that heads a longer word is still replaced, and the rest of the word is copied after its value |
| LineProperties.ProvidedPrefixFree | lib/Pagon/Logger.php:63 | No provided name is a proper prefix of another |
| LineProperties.PrefixReplaced | lib/Pagon/Logger.php:60-78 | `$texts` and `$levels` get their `$text` or `$level` head replaced though the scan gives them no provider; the level value is padded only if a bare `$level` is also present |
| LineProperties.PrefixOptional | lib/Pagon/Logger.php:60-78 | `$timestamp` or `$tokens` gets its `$time` or `$token` head replaced, with the rest of the word copied, exactly when a bare `$time` or `$token` is also in the format; otherwise the whole identifier is copied verbatim |
| LineProperties.OptionalAbsent | lib/Pagon/Logger.php:78 | An identifier that no table key prefixes is copied verbatim, however long the word |
| Logging.Pairs | lib/Pagon/Logger.php:105 | Definition: an array argument's entries with each value cast to string, as `strtr` uses them |
| Logging.SelectText | lib/Pagon/Logger.php:102-110 | Definition: the text chosen by the shape of the second argument; its cases are stated on `Logging.Logger.Call` |
| Logging.EmptyArgumentArray | lib/Pagon/Logger.php:104-105 | An empty array argument leaves the text unchanged |
| Logging.ArgumentInterpolation | lib/Pagon/Logger.php:104-105 | `info('user :id in', [':id' => 42])` style: a single key that occurs exactly once in the text is replaced by its value as a string and the rest is copied |
| Logging.Lines | lib/Pagon/Logger.php:120-123 | Definition: each message followed by a newline, in order |
| Logging.Get | lib/Pagon/Logger.php:122 | Definition: a missing file reads as empty, as appending creates it |
| Logging.Flushed | lib/Pagon/Logger.php:118-124 | Definition: the file after a write of the given messages; other files untouched, nothing written for no messages |
| Logging.LinesAppend | lib/Pagon/Logger.php:120-123 | Appending two batches of lines writes the first batch's text then the second's |
| Logging.FlushedElsewhere | lib/Pagon/Logger.php:122 | Writing touches only the logger's own file |
| Logging.FlushCompose | lib/Pagon/Logger.php:118-124 | Two writes in a row give the same file as one write of both batches |
| Logging.FlushStep | lib/Pagon/Logger.php:120-123 | Writing one more message appends that message and a newline to the file |
| Logging.LastLineWritten | lib/Pagon/Logger.php:78-82 | After an automatic write the file ends with the new line and a newline |
| Logging.MessageQueue.constructor | lib/Pagon/Logger.php:29 | The shared queue starts empty |
| Logging.MessageQueue.Push | lib/Pagon/Logger.php:78 | The queue gains exactly the new line at its end, earlier entries unchanged |
| Logging.MessageQueue.RemoveFirst | lib/Pagon/Logger.php:121 | The oldest entry is dropped and the rest kept in order |
| Logging.Disk.Append | lib/Pagon/Logger.php:122 | The file gains the data at its end (a missing file is created); other files are unchanged |
| Logging.Logger.Write | lib/Pagon/Logger.php:118-124 | The queue ends empty and the file is the old file followed by every queued message and a newline, in queue order; an empty queue leaves the file unchanged |
| Logging.Logger.Log | lib/Pagon/Logger.php:56-83 | The level defaults to `INFO`. Without `auto_write` the queue gains exactly the formatted line at its end and the files are unchanged; with it the queue ends empty and the file has every pending line, the new one last |
| Logging.Logger.Call | lib/Pagon/Logger.php:99-113 | A name outside the five levels changes neither queue nor files. A level name logs at the index of that name: the text verbatim when there is no second argument or it is neither array nor string, `strtr` of the text over the array's pairs for an array, `vsprintf` over all extra arguments for a string |

## Left out

- File I/O is a map from path to contents. A failing `file_put_contents` is not modelled, and `PHP_EOL` is `"\n"`.
- `date()` and `sha1(uniqid())` are not computed. The time is a parameter of `Log` and `Call`, and the token is a constructor parameter, fixed per instance.
- The time is one value per call. In PHP the clock is read again at each `$time` match, but each reading overwrites the record's `time` entry, so the line shows only the last reading at every `$time`. Which reading that is does not matter to the model, since the time is a parameter.
- Strings are sequences of characters, while PHP strings are bytes: `str_pad` counts bytes and `strtr` matches bytes. The two agree for the ASCII level names and `$word` keys, and for pairs whose keys are whole UTF-8 characters. They differ for a key that splits a multi-byte character, such as `"\xC3"` in `info("é", ["\xC3" => "X"])`.
- `vsprintf` is an uninterpreted function parameter of `Call`.
- `Logging.Logger.Call` does not model a failing `vsprintf`. In PHP 8 a format that needs more arguments than it gets, as in `info('%s and %s', 'a')`, throws `ValueError`, and nothing is queued. The model logs a line in every string case.
- The `\w` of the scan is taken in the C locale. Once a script has called `setlocale`, PHP builds PCRE's character tables from `LC_CTYPE`, and `\w` can then match further bytes.
- The `Fiber` base class is not part of this model. The three providers (`time`, `token`, `level`) are modelled directly. A placeholder naming a declared property, such as `$options`, would pass `isset` in PHP and be filled with `Array`; the model gives it no provider.
- `Logging.Logger.Call` takes the first argument as a string. A call with no arguments, or with a non-string first argument, is not modelled.
- PHP values leave out floats and objects, and array keys are always strings.
- `Logging.Logger.constructor` requires the `file` and `format` options, when given, to be strings. Other values would reach `strtr` and `file_put_contents` through PHP's loose typing.
- `Logging.Logger.Log` requires a level index below five. PHP raises a notice or warning there, not an exception, and goes on with a null level name.
- `LineProperties.UnknownPlaceholder` and `LineProperties.FormatOfPieces` cover placeholders that have no provided name as a prefix. Identifiers headed by `text` or `level` are covered by `LineProperties.PrefixReplaced`, and those headed by `time` or `token` by `LineProperties.PrefixOptional`.
- `LineProperties.FormatOfPieces` takes literal pieces that contain no `$`. A `$` not followed by a word character (`cost $ - $text`, `$$text`) is copied by both the scan and `strtr`, but the piece-wise lemma does not state it.
- `strtr` follows PHP 8, where an empty key is ignored. Older PHP versions return `false` for a table with an empty key.
- Concurrent use of the shared queue is not modelled; the model is sequential.
