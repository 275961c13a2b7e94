# Start-up configuration of tele-bot-c, verified in Dafny

The server reads its configuration from `--flag=value` arguments on the command
line (src/main.c). `parse_args` starts from the defaults: port 0 and no Telegram
URL or environment label. It then visits `argv[1]` to `argv[argc-1]` in order.
An argument that begins with `--port=` sets the port with `atoi` of the rest.
One that begins with `--telegram_url=` or `--env=` sets that string to the rest.
Any other argument is reported and ignored. `main` shows each string field, or
"Not provided" when it is NULL.

The project has four modules:

- `Wrappers` (wrappers.dfy): `Option`. `None` stands for a NULL `char *`.
- `CStdlib` (cstdlib.dfy): the C library behaviour the parser depends on.
  C's 32-bit `int` is `int32`. `isspace` uses the "C" locale. `atoi` follows
  ISO C11 section 7.22.1.2, which defers to `strtol` with base 10 (section
  7.22.1.4): skip white space, take one optional sign, then the longest run of
  decimal digits; with no digits the result is 0. `printf`'s `%d` is modelled
  too, as what `atoi` inverts.
- `ServerConfig` (server_config.dfy): the `Config` record, and `Classify`,
  the if-chain that picks a branch. `Step` is one loop iteration. `Apply` is
  the left fold of `Step`, and `ParseConfig` applies it to the defaults and
  `argv[1..]`, as the specification. `ParseArgs` is the loop of `parse_args` as a
  method, proved equal to `ParseConfig`. `Shown` is the display fallback.
- `ConfigProperties` (config_properties.dfy): a second description of the
  outcome, field by field. `LastValue` gives the text after the flag in the last
  argument with that flag. The lemmas tie it to the fold and derive the listed
  properties.

`argv` is a `seq<string>` and `argc` is its length. An `argc` of 0 is allowed;
then the loop does not run. Each string holds the characters before the
terminating NUL, so `strncmp(arg, flag, n) == 0`, with `n` the flag's length,
is a prefix test. The caller's `Config *` becomes the method's result.

The port is not range-checked: `atoi` gives `--port=-5` the port -5, and
nothing in src/main.c rejects it.

## Model

| member | source | states |
|---|---|---|
| `CStdlib.IsSpace` | src/main.c:18 | `isspace` in the "C" locale; no white-space character is a digit or a sign, so the skip never swallows the start of a number |
| `CStdlib.SpacePrefix` | src/main.c:18 | the white space `atoi` skips is the longest prefix of `isspace` characters: all of it is white space, and the next character (if any) is not |
| `CStdlib.DigitPrefix` | src/main.c:18 | the digit run `atoi` converts is the longest prefix of decimal digits |
| `CStdlib.Digits` | src/main.c:36 | the `%d` digits of a non-negative number: a non-empty run of digits that denotes the number, "0" for zero and no leading zero otherwise |
| `CStdlib.Decimal` | src/main.c:36 | what `%d` prints for `n`: `-` exactly when `n` is negative, then a non-empty run of digits with no leading zero (the fewest digits, default precision 1); `strtol` reads it back as `n` |
| `CStdlib.StrtolValue` | src/main.c:18 | the value of the subject sequence `strtol(s, NULL, 10)` recognises (white space, optional sign, longest digit run); a string with no digit at all, such as "" or "abc", gives 0 |
| `CStdlib.AtoiText` | src/main.c:18 | on every input whose value fits in an `int`, `atoi` returns a non-zero value only if the text contains a digit, and a negative value only if it contains a minus sign |
| `CStdlib.StrtolAfterSpaces` | src/main.c:18 | leading white space does not change the value `atoi` returns, whatever follows it |
| `CStdlib.StrtolOfNumeral` | src/main.c:18 | white space, an optional `+`/`-` and at least one digit, followed by anything that does not start with a digit, convert to the signed value of the digits |
| `CStdlib.StrtolWithoutDigits` | src/main.c:18 | when no digit follows the white space and the optional sign, `atoi` returns 0 |
| `CStdlib.AtoiDecimal` | src/main.c:18 | `atoi` of what `%d` prints for an `int` has defined behaviour and gives back that `int` |
| `ServerConfig.HasPrefix` | src/main.c:17-21 | `strncmp(arg, flag, n) == 0` with `n` the flag's length: the first `n` characters agree one by one, and then `arg` is the flag followed by the text after it |
| `ServerConfig.FlagsDisjoint` | src/main.c:17-22 | no argument begins with two of `--port=`, `--telegram_url=` and `--env=` |
| `ServerConfig.Classify` | src/main.c:17-25 | the if-chain selects the port branch exactly when the argument begins with `--port=`, the Telegram branch exactly when it begins with `--telegram_url=`, the env branch exactly when it begins with `--env=`: at most one branch can fire |
| `ServerConfig.Step` | src/main.c:17-25 | one iteration sets only the field of the flag that begins the argument: the port to `atoi` of the text after the 7 characters of `--port=`, `telegram_url` to the text after the 15-character prefix, `env` to the text after the 6-character prefix; an argument with none of the flags leaves the record unchanged |
| `ServerConfig.Apply` | src/main.c:16-26 | the loop as a left fold of `Step`; arguments none of which carries a flag leave the record unchanged |
| `ServerConfig.ParseConfig` | src/main.c:11-27 | the specification of `parse_args`: the fold over `argv[1..argc-1]` from the defaults; with no argument after `argv[0]` the port is 0 and `telegram_url` and `env` are both absent |
| `ServerConfig.Shown` | src/main.c:35-40 | `main` shows a present value as it is, and shows "Not provided" exactly when the field is NULL or holds the text "Not provided" itself |
| `ServerConfig.ParseArgs` | src/main.c:11-27 | the loop that writes the defaults and then tests each of `argv[1..argc-1]` against the three flags in order yields exactly the left fold of `Step` over those arguments, starting from the defaults |
| `ServerConfig.ApplyAppend` | src/main.c:16-26 | processing two runs of arguments one after the other is processing the first run, then the second from the record it left |
| `ConfigProperties.ApplyByField` | src/main.c:16-26 | after the loop, each field holds the value from the last argument with its flag (for the port, the `atoi` value of that text), and keeps its previous value when no argument has the flag |
| `ConfigProperties.ParseConfigByField` | src/main.c:11-27 | the parsed port is `atoi` of the last `--port=` value, or 0; the parsed `telegram_url` and `env` are the text after the last `--telegram_url=` and `--env=`, or absent |
| `ConfigProperties.LastValue` | src/main.c:16-22 | the independent reading of a field: the text after the flag in the last argument that carries it; it is absent exactly when no argument begins with the flag, and otherwise comes from such an argument |
| `ConfigProperties.LastValueIsLastOccurrence` | src/main.c:16-22 | the argument that decides a field is the last one that begins with the field's flag |
| `ConfigProperties.ProgramNameIgnored` | src/main.c:16 | replacing `argv[0]` changes neither the arguments visited nor the resulting configuration |
| `ConfigProperties.LastOccurrenceWins` | src/main.c:16-22 | when a flag occurs at index `i` and not after it, its field ends as argument `i` sets it |
| `ConfigProperties.AbsentFlagKeepsDefault` | src/main.c:12-22 | a field whose flag occurs in no argument keeps its default (port 0, string absent) |
| `ConfigProperties.UnknownArgumentIgnored` | src/main.c:23-25 | removing an argument that matches none of the flags gives the same configuration |
| `ConfigProperties.StepsCommute` | src/main.c:17-22 | two arguments for different flags, or with no flag, give the same record in either order |
| `ConfigProperties.SwapIndependentArguments` | src/main.c:16-22 | swapping neighbouring arguments for different flags does not change the parsed configuration |
| `ConfigProperties.PortArgumentValue` | src/main.c:17-18 | `--port=` then white space, an optional sign and digits sets only the port, to the value of that number (when it fits in an `int`) |
| `ConfigProperties.PortWithoutDigits` | src/main.c:17-18 | `--port=` with no digits after the white space and the optional sign (`--port=`, `--port=abc`) sets the port to 0 |
| `ConfigProperties.PortRoundTrip` | src/main.c:18 | `--port=` followed by the `%d` text of any `int` parses to exactly that port, with both strings absent |
| `ConfigProperties.EmptyValueIsPresent` | src/main.c:19-22 | a final `--env=` or `--telegram_url=` with nothing after it leaves that field present and empty, so it is shown as the empty string and not as "Not provided" |

## Left out

- The "Unknown argument" message (src/main.c:24) and the banner `main` prints (src/main.c:34-40) are console output. Only the choice between the value and "Not provided" (`Shown`) and the `%d` text of the port (`Decimal`) are modelled.
- Pointer aliasing: `telegram_url` and `env` point into `argv`'s storage. The model copies the suffix strings. The caller's `Config *` becomes a returned value.
- `atoi` overflow is undefined behaviour in C. `ParseArgs`, `ParseConfig`, `Step` and `Atoi` require that every `--port=` value converts to a number within the range of a 32-bit `int`.
- `int` is taken to be 32 bits wide, and `isspace` to use the "C" locale; other platforms and locales are not modelled.
- Arguments are modelled as their characters before the terminating NUL. One model `char` stands for one byte of `argv`; the flags, the "C"-locale white space and the digits are all ASCII, so nothing the parser tests depends on multi-byte text. A NUL inside an argument cannot occur in C and is not modelled.
- `main`'s return value and the process entry are not modelled.
- The HTTP accept loop, request-line parsing, route dispatch, the JSON/response string builder and signal handling are not modelled: `parse_args` and `main` in src/main.c contain none of this.
