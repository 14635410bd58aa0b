# pyutils core, modelled in Dafny

This project models three parts of the `pyutils` package and proves properties of them.

- **The SimpleMessage frame and the exact-read loop** (`pyutils/network.py`). A frame is a 16-octet
  header followed by a body. The header holds:
  - the big-endian 32-bit magic `0x22334161`;
  - the big-endian 32-bit body size;
  - a type octet (1 = Command, 2 = Data);
  - seven zero octets of padding.

  A Command body is a big-endian 32-bit name length followed by the name in UTF-8. A Data body is the
  raw payload. `SimpleMessage` is a class whose setters, `set_header` and `set_body` update its fields
  in place. `to_bytes` reads them back into a frame. `recv_bytes` accumulates partial reads until a
  requested number of octets has arrived, and `recv_message` reads and checks one frame. UTF-8 is the
  byte-sequence grammar of section 4 of RFC 3629 (`utf8.dfy`). The `!I` integers are in `bytes.dfy`.
- **Small data structures** (`pyutils/misc.py`):
  - `RandomDict`: a key-to-position dictionary plus a list of pairs, with swap-with-last deletion;
  - `ProbCalculator`: a list of (rate, item) pairs with a running total;
  - `NumberRangeEnd` and `NumberRange`: interval ends with tie rules for open and closed ends, plus
    membership, validity status, the string form, and the bracket-string parser `from_string`.
- **Level and channel bookkeeping** (`pyutils/logger.py`):
  - the `LogLevel` maps between level numbers and names, with aliases and upper-casing;
  - the `LogChannel` display name and column lines, and the `ChannelOption` object a logger shares with
    its channels;
  - the per-level callback dictionaries that `log`, `add_log_callback` and `clear_log_callbacks` update
    in place.

Where Python raises an exception on a path the model covers, the model returns it as a value:
- `ConnectionClosed` and the `AssertionError` of `recv_message`;
- `KeyError`, `IndexError` and `ValueError` of `RandomDict`;
- `NoItem`, the `ValueError` of `random.randrange` in `ProbCalculator.get`, and the `AssertionError` of
  `ProbCalculator.add`;
- the `TypeError` of comparing a `None` end;
- the `ValueError` of `int()` on a number with a decimal point;
- the `struct.error` of packing a size of 2^32 or more.

Python `str` is a Dafny `string`, `bytes` is a sequence of octets, and integers are unbounded, as
Python's are.

## Model

| member | source | states |
|---|---|---|
| Bytes.Be32Decodes | pyutils/network.py:126-129 | unpacking `!I` from the packing of any `n < 2^32` gives `n` back |
| Bytes.FromBe32Encodes | pyutils/network.py:149 | every 4 octets are the `!I` packing of the number they unpack to |
| Utf8.EncodeDecodes | pyutils/network.py:181 | the UTF-8 encoding of any string is well-formed under the RFC 3629 grammar and decodes to that string |
| Utf8.DecodeEncodes | pyutils/network.py:152-155 | a well-formed octet string decodes to text that encodes back to the same octets |
| Utf8.EncodeLength | pyutils/network.py:86 | encoding never shortens a string, and keeps its length exactly when every character is ASCII |
| Utf8.EncodeAscii | pyutils/network.py:82 | an ASCII string encodes to one octet per character, equal to its code |
| SimpleMessages.IsValidType | pyutils/network.py:194-200 | a type is valid exactly when it is Command (1) or Data (2) |
| SimpleMessages.PackHeader | pyutils/network.py:170-172 | the packed header is 16 octets: the magic, the body size, the type octet and seven zeros |
| SimpleMessages.SimpleMessage.SetMessageData | pyutils/network.py:78-86 | the type becomes Data; the stored data is the UTF-8 of a `str` or the `bytes` themselves; the body size counts characters of a `str`; no other field changes |
| SimpleMessages.SimpleMessage.SetCommandName | pyutils/network.py:92-97 | the type becomes Command and the body size is 4 plus the number of characters of the name; no other field changes |
| SimpleMessages.SimpleMessage.constructor | pyutils/network.py:49-56 | a new message has no header and no body, is not valid, has body size 0, type INVALID, an empty name and empty data |
| SimpleMessages.SimpleMessage.TypeTests | pyutils/network.py:161-165 | `is_command` and `is_data` never both hold, and one of them holds exactly when the type is valid, so the two branches of `set_body` and `to_bytes` cover every valid type |
| SimpleMessages.SimpleMessage.SetHeader | pyutils/network.py:115-141 | succeeds exactly for 16 octets starting with the magic while the message's current type is not valid; the decoded type octet is not checked; on success it stores the header, clears the body, and takes the size and type from the header; on failure nothing changes |
| SimpleMessages.SimpleMessage.SetBody | pyutils/network.py:143-159 | succeeds exactly when a header is set, the length is the body size and, for Command, a 4-octet prefix equals the length of the rest and the rest is well-formed UTF-8; a Command body sets the decoded name and a Data body the data; on failure nothing changes |
| SimpleMessages.SimpleMessage.ToBytes | pyutils/network.py:167-192 | `None` for an invalid type; `struct.error` when a header must be packed for a size of 2^32 or more |
| SimpleMessages.SimpleMessage.FrameStartsWithHeader | pyutils/network.py:169-175 | a frame starts with the stored header, or else with the packed one (magic, size, type, padding) for a size below 2^32 |
| SimpleMessages.SimpleMessage.FrameEndsWithBody | pyutils/network.py:177-190 | a frame ends with the stored body, or else with the data, whose length is the recorded size, or else with the 4-octet name length and the UTF-8 name, where 4 plus the name length is the recorded size |
| SimpleMessages.SimpleMessage.SizeMismatchRefused | pyutils/network.py:180-184 | without a stored body, a Command name or Data payload whose length disagrees with the recorded body size gives `None` |
| SimpleMessages.EncodeFreshData | pyutils/network.py:167-192 | a fresh message given a `bytes` payload encodes to magic, size, type 2, seven zeros and the payload, and to `struct.error` when the size does not fit in 32 bits |
| SimpleMessages.EncodeFreshText | pyutils/network.py:81-86 | a fresh message given a `str` payload encodes when the text is ASCII and gives `None` otherwise, because the size counts characters but the data holds octets |
| SimpleMessages.EncodeFreshCommand | pyutils/network.py:176-181 | a fresh message given a command name encodes to the Command header, the 4-octet character count and the UTF-8 of the name |
| SimpleMessages.DataRoundTrip | pyutils/network.py:115-159 | a fresh receiver accepts the first 16 octets of a Data frame as header and the rest as body, recovers the payload, and re-encodes the same frame |
| SimpleMessages.CommandRoundTrip | pyutils/network.py:143-155 | a fresh receiver accepts both halves of the frame of an ASCII command name and recovers the name |
| SimpleMessages.NonAsciiCommandRejected | pyutils/network.py:95 | for a name with a non-ASCII character, when the frame is split at octet 16 (the header, then everything after it), the receiver accepts the header but rejects the rest as body, because it is longer than the recorded size |
| SimpleMessages.CommandFrame | pyutils/network.py:176-181 | the Command frame with both counts in octets of the UTF-8 name: `struct.error` when they do not fit in 32 bits, otherwise 16 + 4 + the number of octets long, and for an ASCII name exactly the frame `to_bytes` builds |
| SimpleMessages.Receive | pyutils/network.py:173-174 | a fresh receiver accepts exactly the well-formed headers and the bodies that fit them; a received Command or Data message encodes back to exactly the octets received, padding included |
| SimpleMessages.HeaderTwice | pyutils/network.py:134-135 | a second header is accepted only when the first one carried a type octet other than 1 or 2 |
| SimpleMessages.HeaderAfterSetter | pyutils/network.py:134-135 | a message given a command name or data never accepts a header |
| MessageNodes.Recv | pyutils/network.py:220 | one read returns at most the requested number of octets, is empty exactly when the peer has closed, and loses nothing |
| MessageNodes.RecvBytes | pyutils/network.py:216-224 | returns exactly the next `size` octets the peer sent, or `ConnectionClosed` when the peer closes first; with `size == 0` it reads nothing |
| MessageNodes.RecvMessage | pyutils/network.py:226-233 | `ConnectionClosed` when the stream ends inside the header or the body; `AssertionError` for a header that is not well formed or a body the header does not accept, and success exactly when it does; a returned message is new and holds the header and body read, with the rest of the stream left unread; a Command message holds the decoded name after the 4-octet prefix and a Data message holds the body as data |
| MessageNodes.NonAsciiNameCutShort | pyutils/network.py:226-233 | `recv_message` on a stream carrying the frame `to_bytes` builds for the name `éab`, then anything else, accepts the cut name `éa` and leaves the final `b` in the stream ahead of what follows |
| MessageNodes.CommandDelivered | pyutils/network.py:226-233 | with both counts in octets, `recv_message` on a stream carrying the Command frame of any name, then anything else, returns a Command message holding exactly that name and leaves exactly what follows the frame |
| RandomDicts.ListIndex | pyutils/misc.py:156 | Python list indexing: negative indices count from the end, and anything else out of range is `IndexError` |
| RandomDicts.RandomDict.constructor | pyutils/misc.py:108-119 | a new dictionary is empty and keeps the invariant |
| RandomDicts.RandomDict.LenCountsKeys | pyutils/misc.py:162-163 | under the invariant, `len` is the number of keys |
| RandomDicts.RandomDict.Len | pyutils/misc.py:162-163 | under the invariant, `len` is the number of pairs |
| RandomDicts.RandomDict.GetItem | pyutils/misc.py:152-157 | `KeyError` for a missing key; under the invariant, the value the dictionary maps the key to |
| RandomDicts.RandomDict.SetItem | pyutils/misc.py:121-129 | a new key keeps the invariant, adds one to `len` and maps to the value; reassigning a present key appends a stale pair, breaks the invariant, and the key still reads its old value |
| RandomDicts.RandomDict.DelItem | pyutils/misc.py:131-150 | `KeyError` for a missing key; the pop-and-swap on the stored state; under the invariant, only that key goes, `len` drops by one, and every other key keeps its value |
| RandomDicts.RandomDict.Assign | pyutils/misc.py:121-129 | the corrected assignment keeps the invariant for present and new keys, and the key maps to the new value |
| RandomDicts.RandomDict.RandomKey | pyutils/misc.py:168-174 | `KeyError` when empty; otherwise, for any position drawn in `[0, last_index]`, a key that is present |
| RandomDicts.ReassignAsWritten | pyutils/misc.py:121-129 | after `d[a]=v1; d[a]=v2` the key reads `v1`, and after `del d[a]; d[b]=w` the key `b` reads `v1` too |
| RandomDicts.ReassignCorrected | pyutils/misc.py:121-129 | the same steps with the corrected assignment read `v2` and `w` |
| RandomDicts.InsertDelete | pyutils/misc.py:131-150 | after two inserts and a delete, the deleted key is `KeyError`, the other keeps its value and is the only key drawn, and deleting again is `KeyError` |
| ProbCalculators.SumRatesConcat | pyutils/misc.py:60 | the total of two lists of pairs is the sum of their totals |
| ProbCalculators.FirstIndex | pyutils/misc.py:64-65 | the first pair whose item matches, or the length when none does |
| ProbCalculators.ProbCalculator.constructor | pyutils/misc.py:50-55 | a new calculator is empty with total 0 |
| ProbCalculators.ProbCalculator.Add | pyutils/misc.py:57-61 | a non-positive rate is `AssertionError` and changes nothing; otherwise the pair is appended and its rate added; the total stays the sum of the rates |
| ProbCalculators.ProbCalculator.Remove | pyutils/misc.py:63-69 | removes only the first pair with the item and subtracts its rate; nothing changes when no pair matches; the total stays the sum of the rates |
| ProbCalculators.ProbCalculator.Empty | pyutils/misc.py:98-99 | true exactly when there are no pairs |
| ProbCalculators.ProbCalculator.Get | pyutils/misc.py:82-92 | `NoItem` exactly when `empty()` holds; otherwise the ranges are computed, then a precision that is not positive gives the `ValueError` of `randrange`, and any other precision gives the item of the pair at the drawn position; the list and the total are unchanged |
| ProbCalculators.PositiveTotal | pyutils/misc.py:58 | with positive rates, the total is positive exactly when the list is not empty |
| ProbCalculators.RemoveAt | pyutils/misc.py:66-67 | removing a pair takes exactly its rate off the total and keeps only pairs that were there |
| ProbCalculators.Bookkeeping | pyutils/misc.py:57-99 | a zero rate is refused; each rate enters and leaves the total with its pair; removing an absent item changes nothing; `get` fails once the last pair is gone; a precision of 0 makes `get` raise `ValueError` |
| NumberRanges.Eq | pyutils/misc.py:203-204 | `==` compares value and closedness and ignores position |
| NumberRanges.Lt | pyutils/misc.py:206-218 | `TypeError` exactly when a value is `None`; a smaller value is below and a larger one is not; `x < x` is false; at equal values an open right end is below a closed end and a closed left end is below an open end |
| NumberRanges.Gt | pyutils/misc.py:220-232 | the mirror of `<`: larger values above, a closed right end above an open one, an open left end above a closed one, `x > x` false |
| NumberRanges.Le | pyutils/misc.py:234-235 | `<=` is true for equal ends without ordering them, and is `<` otherwise |
| NumberRanges.Ge | pyutils/misc.py:237-238 | `>=` is true for equal ends without ordering them, and is `>` otherwise |
| NumberRanges.SamePositionOrder | pyutils/misc.py:206-232 | among ends at one position, `<` and `>` are converse and exactly one of `<`, `==`, `>` holds |
| NumberRanges.SamePositionTransitive | pyutils/misc.py:206-218 | among ends at one position, `<` is transitive |
| NumberRanges.MixedPositionsBothBelow | pyutils/misc.py:210-216 | an open right end and a closed left end at the same value are each `<` the other |
| NumberRanges.Status.Code | pyutils/misc.py:265-269 | the status codes lie in 1 to 5, and 1 is `STATUS_OK`, the code `valid` tests for |
| NumberRanges.StatusOfCode | pyutils/misc.py:265-269 | exactly the integers 1 to 5 stand for a status, and the status an integer stands for has that integer as code |
| NumberRanges.CodeIdentifies | pyutils/misc.py:265-269 | each status has its own code: its code gives it back, and no two statuses share a code |
| NumberRanges.Contains | pyutils/misc.py:286-291 | strictly inner integers are members and outer ones are not; an endpoint is a member exactly when its end is closed; a `None` left value raises `TypeError`; with a `None` right value the answer is `False` when the left test fails and `TypeError` when it passes, so a `None` value raises only when its test is reached |
| NumberRanges.ContainsRange | pyutils/misc.py:292-293 | a range contains itself; with all four values present the answer is a boolean |
| NumberRanges.ContainsRangeSound | pyutils/misc.py:286-293 | when a range contains another, every integer of the other is an integer of the range |
| NumberRanges.GetStatus | pyutils/misc.py:299-313 | BOTH_NONE, LEFT_NONE, RIGHT_NONE and INVALID_VALUE (left above right) each in exactly its case, checked in that order |
| NumberRanges.IsValid | pyutils/misc.py:295-297 | valid exactly when both values are present and the left one is not above the right one |
| NumberRanges.Match | pyutils/misc.py:351-354 | `re.match` of the bracket pattern: a match starts with its opening bracket, ends with a closing one, and captures only number texts |
| NumberRanges.ToInt | pyutils/misc.py:358-361 | `int()` of a captured integer text is its value; a captured text with a decimal point is `ValueError`; an absent group is `None` |
| NumberRanges.FromString | pyutils/misc.py:344-363 | `None` exactly when the pattern does not match; `ValueError` exactly when a captured number has a decimal point; otherwise `[` and `]` close the ends, each captured number gives the value of its digits, an absent number gives a `None` value, and `base` is stored |
| NumberRanges.Repr | pyutils/misc.py:276-282 | the string form opens with `[` for a closed left end and `(` otherwise |
| NumberRanges.ReprParses | pyutils/misc.py:276-282 | `from_string`, given the range's `base` as its argument, reads back the string form of any range with integer values; the `{base}` suffix lies after the match and is ignored |
| NumberRanges.ShortFormLeftMissing | pyutils/misc.py:344-363 | `from_string("(,5]")` gives an open left end with no value and a closed right end at 5, whose status is LEFT_NONE |
| NumberRanges.ShortFormUnclosed | pyutils/misc.py:351-354 | `from_string("[1")` gives `None`, because the pattern needs a closing bracket |
| Text.Upper | pyutils/logger.py:81 | `str.upper()` never shortens a string |
| Text.UpperAscii | pyutils/logger.py:81 | on ASCII text, `str.upper()` keeps the length, capitalises `a`-`z` and leaves every other character as it is |
| Text.UpperIdempotent | pyutils/logger.py:86 | upper-casing twice is upper-casing once |
| Text.LJust | pyutils/logger.py:269 | the text, then fill characters up to the width |
| Text.RJust | pyutils/logger.py:252 | fill characters up to the width, then the text |
| Text.IntToStringParses | pyutils/misc.py:280 | `int(str(n)) == n` for every integer |
| LogLevels.Level2Name | pyutils/logger.py:71-72 | each of the seven levels gets a canonical name that `name_map()` maps back to it; any other integer gets `"Level n"`, which is no name |
| LogLevels.Name2Level | pyutils/logger.py:75-76 | `None` exactly for a string that is no name; a name gives a level whose canonical name it is, unless it is one of the aliases `SUC`, `WARN`, `ERR` |
| LogLevels.GetLevel | pyutils/logger.py:61-68 | an integer gets its `level2name` text; a string that is a name, in its given case, gets its level; any other string gets `"Level s"` |
| LogLevels.JustLevel | pyutils/logger.py:79-82 | an integer is returned as it is; a string is upper-cased and looked up, giving one of the seven levels or `None` |
| LogLevels.JustName | pyutils/logger.py:85-87 | a string is upper-cased; an integer is named by `level2name` |
| LogLevels.Level2NameInverse | pyutils/logger.py:34-58 | `name2level(level2name(n))` is `n` for the seven levels and `None` for every other integer |
| LogLevels.NamesAgree | pyutils/logger.py:46-58 | every alias names the same level as that level's canonical name |
| LogLevels.GetLevelRoundTrip | pyutils/logger.py:61-68 | `get_level` of the name it gives for a level is that level |
| LogLevels.JustLevelIgnoresCase | pyutils/logger.py:79-82 | every spelling of a name in any case gives that name's level |
| LogLevels.JustNameThenLevel | pyutils/logger.py:79-87 | `just_level(just_name(x))` is `just_level(x)` for every name and each of the seven levels |
| LogLevels.JustLevelBeyondAscii | pyutils/logger.py:81 | upper-casing is Python's, so a dotless `ı` or a sharp `ß` can spell a name |
| LogChannels.Prefix | pyutils/logger.py:250 | `s[:n]` with Python's reading of a negative `n` |
| LogChannels.DisplayName | pyutils/logger.py:247-256 | with a length `n >= 0`, exactly `n` characters in parentheses: the name's prefix, or the name padded on the left; with a negative length, the name less that many trailing characters; without a length, `(name)`, or nothing for an empty name |
| LogChannels.ColumnLine | pyutils/logger.py:267-271 | the column line starts with the separator `spliter + " "` |
| LogChannels.ColumnLayout | pyutils/logger.py:269-271 | when no message is wider than `width`, each message has one separator-and-cell pair of equal length, with message `i` left-aligned in the cell at offset `i * (len(spliter) + 1 + width)` |
| LogChannels.SetDefault | pyutils/logger.py:262 | `setdefault(level, [])` adds the level and changes no level's callbacks |
| LogChannels.Appended | pyutils/logger.py:286 | the level's callbacks gain the new one at the end; the other levels keep theirs |
| LogChannels.ClearedLevel | pyutils/logger.py:293 | the level has no callbacks left; the other levels keep theirs |
| LogChannels.CallbackTable.SetDefaultList | pyutils/logger.py:262-264 | returns the level's callbacks and adds the level |
| LogChannels.CallbackTable.Append | pyutils/logger.py:286 | appends to the level's list |
| LogChannels.CallbackTable.Clear | pyutils/logger.py:290 | empties the table |
| LogChannels.CallbackTable.ClearLevel | pyutils/logger.py:293 | empties the level's list |
| LogChannels.ChannelOption.constructor | pyutils/logger.py:140-143 | the defaults: no name length, names displayed, `.` as padding |
| LogChannels.LogChannel.constructor | pyutils/logger.py:236-256 | a new channel is enabled, has no callbacks of its own, shares the logger's option object and callbacks, and shows the display name computed from the option's length and padding at that moment |
| LogChannels.LogChannel.Log | pyutils/logger.py:258-265 | a disabled channel logs nothing and runs nothing; an enabled one logs the message with its display name, or none when the shared option does not display names at the time of the call, and runs the level's own callbacks, then the shared ones, in registration order |
| LogChannels.LogChannel.LogCol | pyutils/logger.py:267-272 | a disabled channel does nothing; an enabled one logs the column line, under the same display rule as `log` |
| LogChannels.LogChannel.AddLogCallback | pyutils/logger.py:274-286 | the callback goes at the end of the list of `just_level(level)`, and every earlier entry stays |
| LogChannels.LogChannel.ClearLogCallbacks | pyutils/logger.py:288-293 | no level empties every level; a level empties only the list of `just_level(level)` |
| LogChannels.SharedLevelList | pyutils/logger.py:258-265 | callbacks registered as `"info"` and as `INFO` share one list, and logging at that level runs them in registration order, then the shared ones, and emits the record with the channel's shown name |
| LogChannels.ClearThenDisable | pyutils/logger.py:258-293 | clearing `"Info"` removes only the channel's own callbacks for that level; a disabled channel emits nothing and runs no callback |
| LogChannels.DisplayNameShared | pyutils/logger.py:258-261 | turning `display_name` off on the shared option after two channels exist removes the name from the records of both |

## Left out

- The server and client of `pyutils/network.py` (`SimpleMessageServer`, `SimpleMessageClient`): socket, `select` and `sendall` plumbing.
- The socket itself. The model takes the stream as the sequence of segments the peer delivers. Timeouts and `OSError` are not modelled.
- SimpleMessages.SimpleMessage.SetMessageData: a value that is neither `str` nor `bytes` is silently ignored by the source. The model's argument type admits only those two.
- SimpleMessages.SimpleMessage.SetCommandName: a non-`str` name is silently ignored by the source. The model's argument type admits only strings.
- SimpleMessages.SimpleMessage.SetHeader and SetBody: the `isinstance(..., bytes)` rejections are not modelled, for the same reason.
- SimpleMessages.SimpleMessage.ToBytes: the branch for a `str` held as message data cannot be reached, because the setter always stores octets. It is not modelled.
- `SimpleMessage.__repr__` and the `valid`, `header` and `body` getters are not modelled. They only read fields.
- Python strings that hold lone surrogates have no Dafny `string` counterpart.
- Text.IsDigit: `\d` and `int()` accept every Unicode decimal digit, but the model admits only `0`-`9`.
- Text.Upper: only characters whose upper case consists of ASCII letters are mapped. Other non-ASCII letters keep their case, while `str.upper()` would change them. A name lookup never depends on them, but `just_name` of such a string returns them unchanged in the model.
- NumberRanges.FromString: `is_float=True` is not modelled; every value is an integer. A number with a decimal point gives the `ValueError` that `int()` raises.
- The random parts of `pyutils/misc.py` are not modelled: `random_choice*`, `percent`, `safe_uuid`, and the float ranges and draw of `ProbCalculator.get` with its fallback `random.choice`.
- ProbCalculators.ProbCalculator.Get: the draw is a position given by the caller. The contract therefore says only which pair's item is returned, not how likely each item is. When the draw misses every truncated range, the source falls back on `random.choice(self.__items)` only if the last item is falsy, and that returns a (rate, item) pair rather than an item. Item truthiness and this fallback are not modelled.
- `ProbCalculator.pop` is not modelled. It is `get` followed by `remove`.
- `RandomDict.__init__` with arguments, `update`, `__iter__`, `__str__`, `random_value`, `random_item` and the `MutableMapping` mixin methods are not modelled.
- Python run with `-O` drops `assert` statements. The model keeps the `AssertionError` paths of `recv_message` and `ProbCalculator.add`.
- The `logging` calls are not modelled: formatters, handlers and `Logger.log`. A call to `Logger.log` becomes the record that `Log` returns.
- The `inspect.signature` arity wrapper of `add_log_callback` is not modelled. A callback is known by identity only.
- LogChannels.LogChannel.Log: callbacks are not run. `Log` returns the list of callbacks it would invoke, so a callback that changes the tables while they are iterated is not modelled.
- LogChannels.DisplayName: the padding is one character. A `name_padding` of another length makes `rjust` raise `TypeError`, which is not modelled.
- `LoggerMixin` (channel creation, handlers, the logger's own callbacks) and the top-level `logger.py` are not modelled. The table and the option a logger shares with its channels are a `CallbackTable` and a `ChannelOption` passed to the channel.

## Findings

| source | as written | input that shows it | evidently intended | confidence | as-written member | corrected member |
|---|---|---|---|---|---|---|
| pyutils/misc.py:121-129 | `__setitem__` on a key already present keeps its position but appends a second pair instead of overwriting | `d[a] = 1; d[a] = 2; d[a]` gives 1; then `del d[a]; d[b] = 3; d[b]` gives 1 | the pair at the key's position is replaced, so `d[a]` gives 2 and later `d[b]` gives 3 | not executed | RandomDicts.ReassignAsWritten | RandomDicts.ReassignCorrected |
| pyutils/network.py:92-97 | the `command_name` setter records 4 plus the number of characters as body size, and `to_bytes` packs the number of characters as name length, while the name is sent as UTF-8 octets; `recv_message` reads only the recorded size, so a non-ASCII name arrives cut short and its remaining octets are left in the stream | the name `éab` (5 octets): the receiver gets `éa`, and the octet of `b` is read as the start of the next frame | both counts are octets of the UTF-8 name, so the receiver gets the whole name and the stream stays in step | not executed | MessageNodes.NonAsciiNameCutShort | MessageNodes.CommandDelivered |
