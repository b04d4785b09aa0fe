# UE-keyframes: DMX channel data to Unreal light keyframes

This project models the two scripts of the UE-keyframes repository in Dafny. Together they turn
per-frame DMX lighting data into Intensity keyframes in an Unreal Engine level sequence.

- `convert_dmx_to_csv` reads a raw channel file line by line. It skips lines that start with `#` and
  lines that are blank. It splits every other line on whitespace and divides each token by 255. It
  writes a CSV table: the header `frame, light_0 … light_63`, then one row per data line. Each row
  starts with a frame counter that only data lines advance. A token that `float()` rejects aborts the
  conversion, and the rows written before it stay in the file.
- `import_dmx_to_sequencer` finds or creates the level sequence `/Game/Sequences/LightAnimation`. It
  skips the CSV header and collects the level's point lights labelled `PointLight0` … `PointLight63`
  into a dict; a later actor with the same label replaces an earlier one. Then, in the dict's
  insertion order, it binds each light and adds one key per CSV row: frame k gets
  `float(row_k[light_index]) * 5000`.

The importer indexes a CSV row with the light's own number, but column 0 of every row is the frame
counter. So light 0 is keyed with the frame counter, and light i ≥ 1 reads the column headed
`light_{i-1}`. The model keeps this behaviour as the code has it. `Pipeline` states it as lemmas about
the two scripts run one after the other.

Modules:

- `Results`: Option and Result.
- `Text`: the Python string built-ins the scripts use. These are `str.isspace`, `strip()`,
  `split()`, `str.split('/')` and `'/'.join`, `str()` of an int, and `float()` on a decimal-digit
  token.
- `CsvTable`: CSV cells and rows, and the output file as a class whose rows `writerow` extends.
- `ConvertDmx`: the converter. The specification functions are `ParseLine` and `ConvertLines`, and
  the imperative loop is `ConvertDmxToCsv`.
- `ImportDmx`: the importer. It holds the asset path split, the `point_lights` dict as an
  insertion-ordered list of entries, and the key loops (`ChannelKeys`, `TrackKeys`). The editor
  appears as a `Sequencer` class that records each call made on it. `ImportDmxToSequencer` is the
  script.
- `Pipeline`: what the importer does with the converter's output.

Some consequences of the code that the model keeps:

- lights are keyed in dict insertion order. Each light is placed by the first actor labelled for
  it, and the actor stored for it is the last one with that label;
- finding no point lights is not an error: the import reports zero lights;
- raw values above 255 are not rejected, so a normalised value can exceed 1;
- the importer reads `row[light_index]`, which is one column left of the light's own column.

## Model

| member | source | states |
|---|---|---|
| Text.IsSpace | convert_dmx_to_csv.py:20-24 | `str.isspace`: a whitespace character is neither a digit nor '#', so it never starts a comment and never belongs to a number token |
| Text.DigitsValue | convert_dmx_to_csv.py:27 | `float()` of an n-digit token is a whole number below 10^n |
| Text.TrimLeft | convert_dmx_to_csv.py:20 | `lstrip()`: the result is no longer than the input; `TrimLeftSpec` characterises it |
| Text.TrimLeftSpec | convert_dmx_to_csv.py:20 | the left half of `strip()` removes a whitespace-only prefix and nothing more; what remains starts with a non-space |
| Text.TrimRight | convert_dmx_to_csv.py:20 | `rstrip()`: the result is no longer than the input; `TrimRightSpec` characterises it |
| Text.TrimRightSpec | convert_dmx_to_csv.py:20 | the right half of `strip()` removes a whitespace-only suffix and nothing more; what remains ends with a non-space |
| Text.Strip | convert_dmx_to_csv.py:20 | `strip()`: the result is no longer than the input, and neither starts nor ends with whitespace |
| Text.StripEmptyIff | convert_dmx_to_csv.py:20 | `not line.strip()` holds exactly when the line is whitespace only |
| Text.Words | convert_dmx_to_csv.py:24 | `split()`: at most one token per two characters, since tokens are separated by whitespace |
| Text.WordsAreTokens | convert_dmx_to_csv.py:24 | every piece `split()` returns is non-empty and free of whitespace |
| Text.WordsEmptyIff | convert_dmx_to_csv.py:24 | `split()` returns no token exactly when the string is whitespace only |
| Text.WordsKeepNonSpace | convert_dmx_to_csv.py:24 | `split()` drops only whitespace: its tokens, concatenated, are the non-whitespace characters in order |
| Text.WordsOfTrimLeft | convert_dmx_to_csv.py:24 | leading whitespace does not change the tokens |
| Text.WordsOfTrimRight | convert_dmx_to_csv.py:24 | trailing whitespace does not change the tokens |
| Text.WordsOfTokenThenSpace | convert_dmx_to_csv.py:24 | a token followed by whitespace is a single piece of `split()`, and splitting resumes after it, so the pieces are the maximal non-whitespace runs |
| Text.WordsOfStrip | convert_dmx_to_csv.py:24 | `line.strip().split()` gives the same tokens as `line.split()` |
| Text.NatToString | convert_dmx_to_csv.py:9 | `str(i)` of a non-negative int is a non-empty string of decimal digits, starting with '0' exactly for 0 and with no leading zero otherwise |
| Text.DigitsValueOfNatToString | convert_dmx_to_csv.py:9 | reading back the decimal form of n gives n, so the rendering of the numbers in the labels is invertible |
| Text.NatToStringInjective | import_dmx_to_sequencer.py:36 | distinct numbers have distinct decimal forms, so the labels `PointLight{i}` are distinct |
| Text.SplitOn | import_dmx_to_sequencer.py:15-16 | `split('/')` returns at least one piece, and no piece contains '/' |
| Text.JoinWith | import_dmx_to_sequencer.py:16 | `'/'.join(parts)` of two or more parts contains the separator |
| Text.JoinSplitOn | import_dmx_to_sequencer.py:15-16 | `'/'.join(s.split('/')) == s`, so split and join are inverses |
| CsvTable.CsvFile.constructor | convert_dmx_to_csv.py:12 | a new output file has no rows |
| CsvTable.CsvFile.Truncate | convert_dmx_to_csv.py:12 | opening the file in mode 'w' empties it |
| CsvTable.CsvFile.WriteRow | convert_dmx_to_csv.py:33 | `writerow` appends exactly that row after the existing rows |
| ConvertDmx.Header | convert_dmx_to_csv.py:9 | the header has 1 + 64 columns, and the first is `frame` |
| ConvertDmx.HeaderShape | convert_dmx_to_csv.py:9 | the header has 65 distinct names: `frame`, then `light_i` in column i + 1 for i < 64 |
| ConvertDmx.IsComment | convert_dmx_to_csv.py:20 | a line taken for a comment is never whitespace only |
| ConvertDmx.IsSkipped | convert_dmx_to_csv.py:20 | a line the loop does not skip has at least one `split()` token |
| ConvertDmx.SkippedIff | convert_dmx_to_csv.py:20-21 | a line is skipped exactly when its first character is '#' or it is whitespace only |
| ConvertDmx.Normalized | convert_dmx_to_csv.py:27 | `float(val)/255.0` times 255 gives back the token's integer value |
| ConvertDmx.NormalizedBounds | convert_dmx_to_csv.py:27 | `float(val)/255.0` is never negative; it is at most 1 exactly for raw values up to 255, and it is 1 exactly at 255 and 0 exactly at 0 |
| ConvertDmx.Normalize | convert_dmx_to_csv.py:27 | on success there is one value per token; a failure names a token of the line that is not a number |
| ConvertDmx.NormalizeSpec | convert_dmx_to_csv.py:27 | the comprehension succeeds exactly when every token is numeric and then maps token j to its value over 255; otherwise it fails on the first token that is not a number |
| ConvertDmx.ParseLine | convert_dmx_to_csv.py:20-27 | the cells of a data line number as many as its `split()` tokens; a rejection names one of its tokens that is not a number |
| ConvertDmx.ParseLineKind | convert_dmx_to_csv.py:18-27 | one pass of the loop body skips exactly the comment and blank lines, produces cells exactly for numeric data lines, and rejects the rest |
| ConvertDmx.ParseLineSpec | convert_dmx_to_csv.py:24-27 | the cells of a data line are its tokens divided by 255, one per token and in order; a rejected line names one of its non-numeric tokens |
| ConvertDmx.Emit | convert_dmx_to_csv.py:17-35 | the rows written from the parsed lines are at most one per line |
| ConvertDmx.ConvertLines | convert_dmx_to_csv.py:17-35 | the conversion writes at most one row per input line |
| ConvertDmx.ConvertLinesOutcome | convert_dmx_to_csv.py:17-35 | the conversion succeeds exactly when every data line is numeric, and then writes one row per data line; otherwise it stops at the first non-numeric data line, after the rows of the data lines before it |
| ConvertDmx.ConvertedRow | convert_dmx_to_csv.py:17-35 | row k is the frame number k followed by the tokens of the k-th data line divided by 255 |
| ConvertDmx.LineEffect | convert_dmx_to_csv.py:18-35 | one more line: a skipped line changes nothing; a numeric line appends one row numbered with the count of rows so far; any other line stops the conversion without writing a row |
| ConvertDmx.IndentedHashIsData | convert_dmx_to_csv.py:20 | a '#' that is not in the first column does not make a comment: the line is data, and its '#' token aborts the conversion |
| ConvertDmx.NormalizeFailure | convert_dmx_to_csv.py:27 | a failing comprehension reports the first token that is not a number |
| ConvertDmx.StopsAtFailure | convert_dmx_to_csv.py:27 | once the conversion has aborted on a prefix of the input, the rest of the input changes nothing |
| ConvertDmx.ConvertDmxToCsv | convert_dmx_to_csv.py:3-35 | the loop leaves the file holding the header followed by the converted rows, and returns the failure that stopped it, if any |
| ImportDmx.AssetLocationOf | import_dmx_to_sequencer.py:14-16 | the asset name given to `create_asset` contains no '/' |
| ImportDmx.AssetLocationSplits | import_dmx_to_sequencer.py:14-16 | the asset name is the text after the last '/' and the package path is everything before it; a path without '/' is all name |
| ImportDmx.AssetLocationOfJoin | import_dmx_to_sequencer.py:14-16 | a package path, '/' and a name without '/' give back that package path and name |
| ImportDmx.SequenceAssetLocation | import_dmx_to_sequencer.py:5 | the sequence is created as `LightAnimation` in `/Game/Sequences` |
| ImportDmx.LightLabel | import_dmx_to_sequencer.py:36 | `f"PointLight{i}"` is the prefix `PointLight` followed by a non-empty run of decimal digits |
| ImportDmx.LightIndexOfIff | import_dmx_to_sequencer.py:35-36 | a label equals `PointLight{i}` for some i in range(64) exactly when reading its digits back gives i |
| ImportDmx.Put | import_dmx_to_sequencer.py:37 | after `point_lights[i] = actor` the dict holds that pair and has grown by at most one entry |
| ImportDmx.PutSpec | import_dmx_to_sequencer.py:37 | dict assignment: only a new key enters the order, at the end; keys stay distinct; only the assigned light's actor changes |
| ImportDmx.PutLights | import_dmx_to_sequencer.py:37 | assignment keeps the key order for an existing key and appends a new key at the end |
| ImportDmx.PutGet | import_dmx_to_sequencer.py:37 | after assignment the light reads back the new actor and every other light reads what it did before |
| ImportDmx.GetIffLight | import_dmx_to_sequencer.py:30 | the dict holds an actor for a light exactly when that light is one of its keys |
| ImportDmx.BindLabelsSpec | import_dmx_to_sequencer.py:35-37 | the first n passes of the inner loop store the actor under the one light its label names, if that light is below n, and change nothing otherwise |
| ImportDmx.BindLabels | import_dmx_to_sequencer.py:35-37 | the inner loop over n labels adds at most n entries to the dict and never removes one |
| ImportDmx.BindActor | import_dmx_to_sequencer.py:33-37 | one actor adds at most one entry to the dict and never removes one |
| ImportDmx.BindActorSpec | import_dmx_to_sequencer.py:33-37 | only a PointLight is stored, under the single light its label names, and under no other |
| ImportDmx.FirstBinderSpec | import_dmx_to_sequencer.py:33-37 | the reference position finds the first actor that binds a light, and no earlier actor binds it |
| ImportDmx.BinderExists | import_dmx_to_sequencer.py:33-37 | some actor binds a light exactly when a first such actor exists |
| ImportDmx.BindAll | import_dmx_to_sequencer.py:30-37 | the dict holds at most one light per actor of the level |
| ImportDmx.BindAllGet | import_dmx_to_sequencer.py:30-37 | after the loop the keys are distinct, and each light maps to the last actor labelled for it |
| ImportDmx.LastBinderAfter | import_dmx_to_sequencer.py:33-37 | when actor q is labelled for light i, the last actor labelled for i is actor q or a later one |
| ImportDmx.LaterActorReplaces | import_dmx_to_sequencer.py:33-37 | of two distinct actor objects labelled for the same light, the earlier is not the one stored; the stored one is the later actor or one after it |
| ImportDmx.BindAllOrder | import_dmx_to_sequencer.py:30-37 | the keys are exactly the lights some actor binds, ordered by the first actor that binds each |
| ImportDmx.BindAllLightsBelow | import_dmx_to_sequencer.py:35-37 | every key of the dict is a light below 64 |
| ImportDmx.BindAllBounded | import_dmx_to_sequencer.py:30-37 | the dict never holds more than 64 lights |
| ImportDmx.BindPointLights | import_dmx_to_sequencer.py:30-37 | the nested loops build exactly the dict `BindAll` describes |
| ImportDmx.Brightness | import_dmx_to_sequencer.py:55 | `float(frame_values[light_index])` reports a missing column exactly when the row is no longer than the index, gives the cell's value when it is a number, and any other failure is a cell that is not a number |
| ImportDmx.ShortRowStopsKeys | import_dmx_to_sequencer.py:53-55 | a row too short for the light's index makes the light's key loop fail, with no key from that row on |
| ImportDmx.ChannelKeys | import_dmx_to_sequencer.py:53-64 | the key loop for one light makes at most one key per row |
| ImportDmx.ChannelKeysSpec | import_dmx_to_sequencer.py:53-64 | key k sits on frame k with the light's cell of row k times 5000; the loop finishes exactly when every row can be read, with one key per row; otherwise it stops at the first unreadable row with that row's error |
| ImportDmx.ChannelKeysLeadingCells | import_dmx_to_sequencer.py:53-64 | the key loop of a light below m gives the same calls and failure on rows that agree on their cells below column m |
| ImportDmx.TrackKeysLeadingCells | import_dmx_to_sequencer.py:40-64 | the loop over lights below m gives the same calls and failure on rows that agree on their cells below column m |
| ImportDmx.ChannelKeysStopsAtFailure | import_dmx_to_sequencer.py:55 | once the key loop has failed on a row, later rows add nothing |
| ImportDmx.TrackKeys | import_dmx_to_sequencer.py:40-64 | the loop over the dict makes at most one binding and one key per row for each light |
| ImportDmx.TrackKeysStopsAtFailure | import_dmx_to_sequencer.py:40-64 | once a light's key loop has failed, later lights get no call |
| ImportDmx.TrackKeysSucceedsIff | import_dmx_to_sequencer.py:40-64 | the import of keys finishes exactly when every bound light's key loop finishes |
| ImportDmx.TrackKeysCount | import_dmx_to_sequencer.py:40-64 | a finished import makes one binding plus one key per row for every light |
| ImportDmx.TrackKeysOtherLight | import_dmx_to_sequencer.py:40 | a light that is not a key of the dict gets no call |
| ImportDmx.TrackKeysPerLight | import_dmx_to_sequencer.py:40-64 | for a light of the dict, the calls about it are its binding followed by its whole key loop |
| ImportDmx.Sequencer.constructor | import_dmx_to_sequencer.py:12 | a sequence starts with no calls made on it |
| ImportDmx.Sequencer.CreateAsset | import_dmx_to_sequencer.py:14-19 | creating the asset records one creation at the given location and nothing else |
| ImportDmx.Sequencer.AddTrack | import_dmx_to_sequencer.py:42-50 | binding a light records one binding of that light to that actor |
| ImportDmx.Sequencer.AddKey | import_dmx_to_sequencer.py:59-64 | `add_key` records one key for that light, frame and value |
| ImportDmx.AddChannelKeys | import_dmx_to_sequencer.py:53-64 | the key loop makes exactly the calls of `ChannelKeys` and returns its failure |
| ImportDmx.AddTracks | import_dmx_to_sequencer.py:40-64 | the loop over the dict makes exactly the calls of `TrackKeys` and returns its failure |
| ImportDmx.ImportDmxToSequencer | import_dmx_to_sequencer.py:10-67 | a missing sequence is created first; the calls then made are those of `ImportCalls`; the result is the error that stopped the import, or the frame count (rows after the header) and the light count |
| ImportDmx.ImportCalls | import_dmx_to_sequencer.py:24-64 | the import makes at most one call per CSV row for each light of the dict (the header row's share being the binding) |
| ImportDmx.ImportKeysPerLight | import_dmx_to_sequencer.py:24-64 | in a finished import, a light no actor is labelled for gets no call; any other light is bound once to the last actor labelled for it, its key loop finishes, and it gets one key per CSV row after the header: `len(frame_data)` keys |
| Pipeline.ColumnReadByLight | import_dmx_to_sequencer.py:55 | light 0 reads the column headed `frame`, and light i ≥ 1 reads the column headed `light_{i-1}` |
| Pipeline.LastColumnUnread | import_dmx_to_sequencer.py:53-64 | two CSV files whose frame rows agree on their first 64 cells give the same import, so the `light_63` column and any later one never reach the editor |
| Pipeline.LightZeroReadsFrameCounter | import_dmx_to_sequencer.py:53-55 | on converted data, light 0's brightness on frame k is k, the frame counter |
| Pipeline.LightReadsPreviousColumn | import_dmx_to_sequencer.py:55 | light i ≥ 1 reads token i - 1 of the k-th data line divided by 255, or fails on frame k when the line has fewer than i tokens |
| Pipeline.ConvertedBrightness | import_dmx_to_sequencer.py:55 | a light can read a converted row exactly when the light's index is at most the data line's token count |
| Pipeline.ConvertedImportSucceedsIff | import_dmx_to_sequencer.py:40-64 | importing converted data finishes exactly when every data line has at least as many tokens as the index of every bound light |

## Left out

- File I/O: `readlines()`, `open` and the CSV file name constants. The converter takes the lines as a
  sequence. The importer takes the CSV rows as a sequence.
- CSV text: quoting, delimiters and number formatting. A cell is either a number or a string. A
  number written by `writerow` comes back unchanged through `float()`.
- Floating point: values are exact reals, with no IEEE rounding.
- `float()` accepts only ASCII decimal-digit tokens here. Signs, decimal points, exponents,
  underscores, `inf`/`nan` and non-ASCII digits are treated as rejected tokens.
- Unreal Engine internals. `load_asset` finding the sequence is a parameter. `create_asset`,
  `add_possessable`, `add_track`, `set_property_name_and_path`, `add_section`,
  `get_channels_by_type(...)[0]` and `add_key` are recorded as calls on `Sequencer`. Host failures
  are not modelled, such as `create_asset` returning None or an empty channel list.
- `get_editor_subsystem().get_all_level_actors()`: the level's actors are a parameter. An actor is
  reduced to an identity number standing for the object, whether it is a PointLight, and its
  label. The model does not track what else the host does to the objects.
- `FPS`: the constant is never used by the code.
- The summary `print` and the returned sequence object: the model returns the frame and light
  counts the message reports.
- Exceptions: each becomes an error value. The importer's errors also carry the frame and light they
  arose at, which Python's messages do not.
- `list_actors.py` is not part of this model.
