# Wowza interlaced converter: command assembly

`converter.py` is a small web form. It collects:

- an SRT input source (host, port, optional latency, optional passphrase);
- encoding choices (copy or convert, interlaced or not, YADIF mode, audio codec and bitrate);
- a Wowza output target (server number, port, timeout).

It then builds one transcoder command line as a string. This project models that assembly step and proves what the string looks like for every combination of the form's checkboxes.

It has four modules:

- `Decimal` (`decimal.dfy`): Python's rendering of an `int` inside an f-string, as `IntToDecimal`. This is an optional `-` followed by digits with no leading zeros. Its inverse, `DecimalValue`, is proved to make the two a bijection.
- `Text` (`text.dfy`): substring occurrence (`OccursAt`, `Occurs`). It also has the lemmas used to show that a token does or does not occur in a concatenation.
- `Converter` (`converter.dfy`): the form's values (`Form`, with its initial values `DefaultForm`) and the four assembly steps:
  - the input URL, built as the script builds it, with conditional appends to a local string (`BuildInputUrl`);
  - the output URL, one interpolation (`OutputUrl`);
  - the flag block, built by appends (`BuildVideoFlags`);
  - the final command (`GenerateCommand`).

  Each method is proved equal to a specification function (`InputUrl`, `VideoFlags`, `FinalCommand`).
- `CommandProperties` (`command_properties.dfy`): the properties of those functions. These cover which parameters and flags are present and in which order, how the pieces are delimited, and what the output URL determines. For the form's initial values, the exact input URL, flag block, output URL and whole command are proved as a worked scenario.

Notes on how the model covers the code:

- The model follows the code. The command starts with the literal label `ffmpegcommand: `, which is part of `final_cmd` (converter.py:91).
- No YAML or channel entry is produced anywhere in `converter.py`, so none is modelled.
- User text (host, port, passphrase, audio codec and bitrate) is concatenated verbatim, as in the code. So "the URL contains `&latency=` only if latency is ticked" holds only when the user's own text does not contain `&latency=`. The lemmas carry that as a precondition, and `UnescapedPassphraseInjectsLatency` exhibits the input that makes it necessary.
- The number widgets return Python integers. They are modelled as `int`, negative values included; the form sets no minimum. The YADIF mode comes from a two-item selector and is the subset type `0..1`.

## Model

| member | source | states |
|---|---|---|
| Decimal.IntToDecimal | converter.py:65 | an integer renders as a well-formed decimal: digits only, with a leading `-` exactly when negative, and ending in a digit |
| Decimal.DecimalRoundTrip | converter.py:65 | reading a rendered integer back gives the same integer |
| Decimal.DecimalCanonical | converter.py:65 | every canonical decimal string is the rendering of the integer it denotes |
| Decimal.DecimalInjective | converter.py:70 | two integers render identically exactly when they are equal |
| Decimal.DecimalThenDelimiter | converter.py:70 | a rendered integer followed by text that starts with a non-digit splits back uniquely into the integer and that text |
| Converter.BuildInputUrl | converter.py:63-67 | the appended-to local string equals the input URL: the fixed base, then the latency parameter if ticked, then the passphrase parameter if ticked |
| Converter.BuildVideoFlags | converter.py:73-87 | the appended-to local string equals the flag block: empty when copying, otherwise filter (if interlaced), encoder, audio, mapping and stream-id blocks |
| Converter.GenerateCommand | converter.py:62-95 | the final command equals prefix + input URL + flag block + one space + output URL |
| CommandProperties.InputUrlLayout | converter.py:63-67 | whatever the checkboxes say, the input URL starts with `srt://host:port?fc=5000000&rcvbuf=100000000&timeout=10000000`, and after it comes exactly the latency parameter (if ticked) and then the passphrase parameter (if ticked), nothing else |
| CommandProperties.LatencyIff | converter.py:64-65 | the input URL contains `&latency=` if and only if latency is ticked, given that host, port and passphrase do not contain it |
| CommandProperties.PassphraseIff | converter.py:66-67 | the input URL contains `&passphrase=` if and only if the passphrase is ticked, given that host and port do not contain it |
| CommandProperties.LatencyBeforePassphrase | converter.py:64-67 | with both ticked, `&latency=` starts right after the base, `&passphrase=` starts right after the latency value, and the text between and after them is the latency value and the passphrase |
| CommandProperties.UnescapedPassphraseInjectsLatency | converter.py:66-67 | with latency unticked, the passphrase `x&latency=1` still puts `&latency=` into the URL, so LatencyIff's precondition cannot be dropped |
| Converter.OutputUrl | converter.py:70 | the output URL is the ingest-host template filled in with the three numbers as Python renders them: it starts with `srt://wsc-wowza`, the server number and `-prod-wowza-eus2.eastus2.cloudapp.azure.com:`, ends with `?timeout=` and the timeout, and contains no space, so it is one command-line word |
| CommandProperties.OutputUrlLayout | converter.py:70 | the output URL is `srt://wsc-wowza`, the server number, `-prod-wowza-eus2.eastus2.cloudapp.azure.com:`, the port, then `?timeout=` and the timeout, at the stated positions |
| CommandProperties.OutputUrlDeterminesTarget | converter.py:70 | two output URLs are equal if and only if server number, port and timeout all agree |
| CommandProperties.OutputUrlLacks | converter.py:70 | the output URL contains no space and no `v`, whatever the numbers are |
| CommandProperties.ServerFiveScenario | converter.py:70 | server 5 with port 10011 and timeout 10000000 gives `srt://wsc-wowza5-prod-wowza-eus2.eastus2.cloudapp.azure.com:10011?timeout=10000000` |
| CommandProperties.VideoFlagsDelimited | converter.py:73-87 | the flag block is empty if and only if the stream is copied; otherwise it starts with exactly one space followed by `-`, the first flag (` -vf` or ` -vcodec`) |
| CommandProperties.InterlaceOnlyOptionalSegment | converter.py:76-87 | when converting, the interlaced flag block is ` -vf yadif=mode=m` followed by the non-interlaced one, which is encoder, audio, mapping and stream-id blocks in that order |
| CommandProperties.CommandLayout | converter.py:90-95 | the command starts with `ffmpegcommand: -timeout 20000000 -rw_timeout 20000000 -i `, which is followed by the input URL and then a space, and it ends with a space and the output URL; that space is the last one in the command, so the output URL is its last word |
| CommandProperties.ConvertModeHasCodecFlags | converter.py:74-87 | when converting, the command contains `-vcodec` and `-acodec`, and `-vf` if interlaced |
| CommandProperties.CopyCommandFreeOfVideoFlag | converter.py:73-74 | when copying, the command contains neither `-vcodec` nor `-vf`, given that the user text in the input URL does not |
| CommandProperties.CopyCommandFreeOfAudioFlag | converter.py:73-74 | when copying, the command does not contain `-acodec`, given that the user text in the input URL does not |
| CommandProperties.OutputUrlFreeOfAudioFlag | converter.py:70 | `-acodec` never occurs in the output URL |
| CommandProperties.CodecFlagsIffConverting | converter.py:73-95 | `-vcodec` and `-acodec` occur in the command if and only if converting; `-vf` occurs only when converting, and always when converting interlaced video; the user text in the input URL must be free of the three flags only in copy mode |
| CommandProperties.DefaultInputUrl | converter.py:13-26 | with the form's initial values the input URL is `srt://54.156.246.82:37301?fc=5000000&rcvbuf=100000000&timeout=10000000&latency=400&passphrase=ch301_wsc_y84fmq1` |
| CommandProperties.DefaultVideoFlags | converter.py:31-50 | with the initial values the flag block is ` -vf yadif=mode=1`, the encoder block, ` -acodec aac -b:a 192k`, and the mapping and stream-id blocks |
| CommandProperties.DefaultOutputUrl | converter.py:55-57 | with the initial values the output URL is `srt://wsc-wowza21-prod-wowza-eus2.eastus2.cloudapp.azure.com:10011?timeout=10000000` |
| CommandProperties.DefaultCommand | converter.py:13-95 | with the initial values the whole command is `ffmpegcommand: -timeout 20000000 -rw_timeout 20000000 -i `, the input URL above, the flag block above, one space and the output URL above |

## Left out

- The Streamlit page (converter.py:1-12, 97-98): page setup, columns, widgets and the final `st.code` display. They are user interface, not logic. The widgets' initial values appear only as `DefaultForm`.
- `maxrate`, `fps_val` and `gop_val` (converter.py:35-36, 44-46). They are collected but never written into any output string.
- Floating-point input. With the integer defaults used here, `st.number_input` returns integers, so all numeric fields are `int`.
- The widgets' conditional visibility. The latency, passphrase, interlace, YADIF and audio inputs are shown only when their checkbox is ticked. The model carries every field in `Form`, and the builders read a field only when the code does.
- URL or shell escaping of user text. The code does none, and the model concatenates verbatim.
- LatencyIff: the "only if" direction assumes the host, port and passphrase do not themselves contain `&latency=`. The code interpolates them unescaped, so without that assumption the property is false (see UnescapedPassphraseInjectsLatency).
- PassphraseIff: the "only if" direction assumes the host and port do not contain `&passphrase=`, for the same reason.
- CopyCommandFreeOfVideoFlag: assumes the host, port and (if ticked) passphrase do not contain the flag, for the same reason.
- CopyCommandFreeOfAudioFlag: the same assumption, for `-acodec`.
- CodecFlagsIffConverting: the same assumption, for `-vcodec`, `-acodec` and `-vf`, in copy mode only.
