# Gas report renderer

A Dafny model of the gas-report script of the solidity-utils repository. The
script takes a gas report and prints it as one HTML table. The report lists
contracts in order. Each contract has a name, the gas and bytecode size of its
deployment, and per-method call statistics: min, mean, median, max and calls.

The script is one accumulator. It starts as `<table>`. Each contract adds a
block: a header template with three holes (name, gas, size) that yields three
rows, then one row template per method with six holes (name and the five
statistics). The accumulator ends with `</table>`. All rows of all contracts go
into that single outer table; no inner table is opened per contract.

Modules:

- `Values`: a field is an integer or absent (`undefined`). `Show` gives its
  text, and `ParseValue` reads the text back.
- `GasReport`: the report, its contract entries, deployment and call
  statistics. The methods of a contract are an ordered list of
  (name, statistics) pairs.
- `Joins`: `Join(f, xs)` appends `f(x)` for each element in order. This is the
  shape of both `map` loops.
- `Templates`: `Interpolate(strings, subs)` evaluates a template literal.
  `Match` reads one back, taking each hole up to the next `<`.
- `Renderer`: the fixed text of the two templates, collected in a `Markup`
  record. `Source` is the script's own text, byte for byte, newlines and
  indentation included. `RenderWith(m, r)` renders with any markup `m`, and
  `Render(r)` is `RenderWith(Source, r)`. The structural lemmas hold for every
  markup, so they apply to `Render` directly.
- `Parser`: a reader for rendered tables. The script has no such reader. It is
  the partner definition used to state that the printed table holds the whole
  report, verbatim and in order.
- `Script`: `RenderTable`, the script's two nested loops written as loops with
  accumulators, proved to produce `Render`.

Over well-formed reports (every contract has a deployment and a method list;
see "Left out" for the inputs on which the script throws), `Render` is a total
function from reports to strings. Deterministic output and the absence of
hidden state follow from that.

## Model

| member | source | states |
|---|---|---|
| `Renderer.Render` | gas-parser.ts:3-37 | The printed table begins with `<table>`, ends with `</table>` and is at least 15 characters long. An empty report prints exactly `<table></table>`. |
| `Renderer.RenderWith` | gas-parser.ts:3-37 | For any markup, the output starts with the opening text and ends with the closing text. With no contracts it is just those two. |
| `Renderer.RenderAppend` | gas-parser.ts:4-36 | Rendering distributes over concatenation. The table for `a + b` holds the blocks of `a` followed by the blocks of `b`, in the one table. |
| `Renderer.BlockAt` | gas-parser.ts:4-36 | The block of the k-th contract appears in the table right after the opening tag and the blocks of contracts 0..k-1, so blocks keep input order. |
| `Renderer.MethodRowAt` | gas-parser.ts:24-34 | The row of the k-th method appears in its contract's block right after the header and the rows of methods 0..k-1, so rows keep enumeration order. |
| `Renderer.BlockFields` | gas-parser.ts:5-23 | A block starts with the header template's first fixed string (`m.block[0]`). The contract name, the deployment gas and the deployment size appear verbatim at the offsets `HoleStart` gives their holes; `Templates.HoleOrder` puts those offsets in this order. |
| `Renderer.MethodRowFields` | gas-parser.ts:25-33 | A method row starts with the row template's first fixed string (`m.methodRow[0]`). The method name, min, mean, median, max and calls appear verbatim at the offsets `HoleStart` gives their holes; `Templates.HoleOrder` puts those offsets in this order. |
| `Renderer.MethodRowsLength` | gas-parser.ts:24-34 | The method rows of a contract take one row's fixed text per method, plus the lengths of all their fields. |
| `Renderer.BlockLength` | gas-parser.ts:5-35 | A block's length is the header's fixed text, plus one row's fixed text per method, plus the lengths of every interpolated field. |
| `Renderer.RenderLength` | gas-parser.ts:3-37 | The table's length is the two tags plus the sum of the block lengths. |
| `Renderer.SourceBlockLength` | gas-parser.ts:5-23 | The script's per-contract template has 322 characters of fixed text. |
| `Renderer.SourceRowLength` | gas-parser.ts:25-33 | The script's per-method template has 115 characters of fixed text. |
| `Script.RenderTable` | gas-parser.ts:3-37 | The script's loops build exactly the table `Render` defines. The outer accumulator gains one block per contract. Each block is built in its own accumulator, one method row at a time. |
| `Parser.ParseRender` | gas-parser.ts:3-37 | Reading the printed table back gives exactly the input report when no contract or method name contains `<`. Every field is embedded verbatim, with one block per contract and one row per method, in order. |
| `Parser.RoundTripWith` | gas-parser.ts:3-37 | The same round trip holds for any markup laid out like the script's (`Unambiguous`). |
| `Parser.RenderInjective` | gas-parser.ts:3-37 | Two reports whose names are free of `<` print the same table if and only if they are equal. |
| `Parser.BlocksRoundTrip` | gas-parser.ts:4-36 | The blocks of a table read back as exactly the list of contracts, in input order, up to the closing tag. |
| `Parser.BlockRoundTrip` | gas-parser.ts:5-35 | A contract's block reads back as that contract: its name, gas and size, and exactly its methods. A contract with no methods reads back with none. |
| `Parser.MethodRowsRoundTrip` | gas-parser.ts:24-34 | A contract's method rows read back as exactly its list of methods: one row per entry, in enumeration order. |
| `Parser.MethodRowRoundTrip` | gas-parser.ts:25-33 | One method row reads back as its method's name and five statistics. |
| `Parser.SourceUnambiguous` | gas-parser.ts:5-33 | In the script's markup, every fixed string that follows a hole starts with `<`. A method row, a contract block and the closing tag differ in their first characters. |
| `Parser.UnescapedNamesCollide` | gas-parser.ts:27 | Names are embedded without escaping. For any markup, a contract with methods `a` and `b` prints the same table as a different contract with one method whose name contains markup. |
| `Templates.MatchInterpolate` | gas-parser.ts:5-23 | Reading back a filled-in template recovers its substitutions and leaves the text after it. This holds when every later fixed string starts with `<` and no substitution contains one. |
| `Templates.HoleAt` | gas-parser.ts:25-33 | Each substitution of a template literal appears verbatim at the offset `HoleStart` gives its hole; `Templates.HoleOrder` puts those offsets in substitution order. |
| `Templates.HoleOrder` | gas-parser.ts:25-33 | Hole `k + 1` starts right after the text of hole `k` and the fixed string between them, so substitutions appear in argument order with nothing else in between. |
| `Templates.InterpolatePrefix` | gas-parser.ts:5-23 | A filled-in template starts with its first fixed string, whatever the substitutions. |
| `Templates.InterpolateLength` | gas-parser.ts:5-23 | A filled-in template is as long as its fixed strings plus its substitutions. |
| `Joins.JoinAppend` | gas-parser.ts:4-36 | Appending one piece per element over `a + b` gives the pieces for `a` followed by the pieces for `b`. |
| `Joins.JoinCons` | gas-parser.ts:24-34 | The piece of the first element comes first, followed by the pieces of the remaining elements. |
| `Joins.JoinSnoc` | gas-parser.ts:24-35 | Extending the processed prefix by one element appends exactly that element's piece: the step each `row +=` (and each `table += row`) takes. |
| `Joins.JoinAt` | gas-parser.ts:4-36 | The piece of the k-th element appears verbatim in the joined text, starting right after the pieces of elements 0..k-1. |
| `Values.Show` | gas-parser.ts:12-14 | A field's text is never empty and never contains `<`. An absent field prints `undefined`; a number's text starts with `-` exactly when it is negative. |
| `Values.ShowDecimal` | gas-parser.ts:28-32 | A number prints as decimal digits with no leading zero (other than `0` itself), after a `-` exactly when it is negative. |
| `Values.ShowRoundTrip` | gas-parser.ts:28-32 | The text of a field reads back as that field, for integers of either sign and for an absent field (`undefined`). |
| `Values.ShowInjective` | gas-parser.ts:13-14 | Two fields print the same text if and only if they are equal. |

## Left out

- Loading the report from `./cache/gas.json` (line 1). This is file I/O and a bundler feature. The report is taken as an already-parsed value.
- Printing the table with `console.log` (line 39). This is I/O. The model stops at the string.
- Number formatting beyond integers. JavaScript prints non-integer means as decimal fractions. It prints integers of magnitude 10^21 or more in exponent form. It prints `null`, strings and objects in their own ways. `Values.Value` covers only integers (printed in plain decimal) and absent fields (`undefined`).
- The key order of `Object.entries`, which puts integer-like keys first. A contract's methods are given as an explicit ordered list, and uniqueness of method names is not required.
- Values.Show: the printed digits match the script's only for integers of magnitude at most 2^53. JavaScript stores every JSON number as a double, so a larger literal is rounded when the report is loaded, and it then prints its shortest round-trip digits padded with zeros (2^60 prints as 1152921504606847000). The model keeps exact integers and prints every digit.
- Malformed reports. The script throws a TypeError before printing anything when an entry is `null` (line 12), when an entry's `deployment` is missing or `null` (line 13), when `functions` is missing or `null` (`Object.entries`, line 24), or when a method's statistics are `null`, as in `"functions": {"f": null}` (line 28, `values.min`). The model's types exclude these inputs: every `ContractEntry` has a deployment record and a method list, and every method has a `CallStats` record, so the model has no error outcome.
- The contract name is modelled as a string. A non-string `contract` value would print through the same coercion as the numeric fields.
