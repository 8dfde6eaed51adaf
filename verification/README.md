# Pagination in lettersmith, modelled in Dafny

lettersmith is a static-site generator. Its paging stage takes a sequence of
content stubs (light references to documents) and synthesises "page"
documents for listing pages: page `n` of `page_count`, holding up to
`per_page` stubs, with a template chain and an output path. This project
models `lettersmith/paging.py`:

- `count_pages`, `slice_page`, `prev_i` and `next_i`: the page arithmetic
  (module `PageArithmetic`, file `page_arithmetic.dfy`);
- the `chunk` helper that `gen_paging` calls, which lives in
  `lettersmith/util.py`. That file is not part of this model, so the helper is
  assumed here to be "consecutive groups of `k`, the last group holding the
  remainder" (module `Chunking`, file `chunking.dfy`);
- the decimal rendering of page numbers and the `{n}` substitution in
  output-path templates (module `Formatting`, file `formatting.dfy`);
- `TEMPLATES`, `OUTPUT_PATH_TEMPLATE` and `gen_paging`, the page builder
  (module `Paging`, file `paging.dfy`).

Stubs are a type parameter `T`, since the paging code never looks inside
them. Generators become finite sequences. Python's `None` arguments become
`Option`, and the exceptions the code raises become `Result.Failure` values
of `PageArithmetic.Error`. `Wrappers` and `Arith` hold the result types and
a few integer facts.

Some behaviour of the code worth knowing:

- `count_pages` with a page size of zero raises `ZeroDivisionError`.
- With a negative page size, `count_pages` returns the ceiling of the
  quotient. The model computes that ceiling for either sign.
- An output-path template is not checked for a `{n}` field.
- An empty output-path template falls back to the default, because the code
  uses `or`. An empty template name is still put in front of the chain,
  because the code tests `is not None`.

## Model

| member | source | states |
|---|---|---|
| `PageArithmetic.CountPages` | lettersmith/paging.py:15-21 | fails with a division by zero exactly when the page size is 0; otherwise the result `c` is the exact ceiling of `length / perPage`, i.e. `c - 1 < length / perPage <= c`, for either sign of the page size |
| `PageArithmetic.CeilingUnique` | lettersmith/paging.py:15-21 | the ceiling characterisation pins down a single integer, so `count_pages` has exactly one correct answer |
| `PageArithmetic.CountPagesOfLength` | lettersmith/paging.py:15-21 | for an item count and a positive page size the page count equals `(length + perPage - 1) / perPage`, is never negative, and is 0 exactly for zero items |
| `PageArithmetic.SlicePage` | lettersmith/paging.py:24-28 | fails exactly when the window start `pageI*perPage` or end `pageI*perPage+perPage` is negative (`islice` rejects these); otherwise returns `max(0, min(end, len(s)) - start)` elements, element `k` being `s[start + k]` |
| `PageArithmetic.SlicePageWindow` | lettersmith/paging.py:24-28 | for a page index from 0 and a positive page size the slice succeeds, holds at most `perPage` items, is empty exactly when `pageI*perPage >= len(s)`, and otherwise equals `s[pageI*perPage .. min(pageI*perPage+perPage, len(s))]` |
| `PageArithmetic.PrevIndex` | lettersmith/paging.py:31-32 | the previous index is never negative, is `i - 1` for `i >= 1`, and is 0 for `i <= 0` |
| `PageArithmetic.NextIndex` | lettersmith/paging.py:35-36 | the next index is at most `length - 1` and at most `i + 1`, and is one of these two; for a valid index `0 <= i < length` it stays in `[i, length - 1]` and stays at `i` exactly at the last index |
| `PageArithmetic.PrevNextRoundTrip` | lettersmith/paging.py:31-36 | stepping forward then back, or back then forward, returns to the same page wherever the step is possible |
| `Chunking.Chunk` | lettersmith/paging.py:47 | every group is non-empty with at most `k` elements, and every group except the last has exactly `k` |
| `Chunking.ChunkFlatten` | lettersmith/paging.py:47 | concatenating the groups gives back the input, in order |
| `Chunking.ChunkUnique` | lettersmith/paging.py:47 | any sequence of groups that obeys the size rules and concatenates to `s` is exactly the chunking of `s` |
| `Chunking.ChunkCount` | lettersmith/paging.py:47-48 | the number of groups `c` satisfies `(c - 1) * k < len(s) <= c * k` |
| `Chunking.ChunkWindow` | lettersmith/paging.py:47 | group `i` starts inside `s` and is the window `s[i*k .. min(i*k + k, len(s))]` |
| `Formatting.NatToString` | lettersmith/paging.py:64 | the numeral of a page number is non-empty, all decimal digits, with no leading zero |
| `Formatting.ParseNatToString` | lettersmith/paging.py:64 | reading the numeral back as a decimal number gives the number |
| `Formatting.NatToStringInjective` | lettersmith/paging.py:64 | two numbers have the same numeral exactly when they are equal |
| `Formatting.FormatNLiteral` | lettersmith/paging.py:53 | formatting leaves text with no brace, opening or closing, unchanged |
| `Formatting.FormatNField` | lettersmith/paging.py:53 | formatting replaces a `{n}` field by the numeral of `n` |
| `Formatting.FormatOneField` | lettersmith/paging.py:53 | a template with one `{n}` field between text free of `{` and `}` formats to that text around the numeral |
| `Paging.GenPaging` | lettersmith/paging.py:39-67 | fails exactly when the page size is below 1; otherwise the page lists obey the chunk size rules (non-empty, at most `perPage`, all but the last full), and document `i` has page number `i + 1`, with `1 <= page_n <= page_count == number of documents` |
| `Paging.PageListsAreChunks` | lettersmith/paging.py:47-54 | the page lists of the documents are the chunks of the stubs, in order |
| `Paging.GenPagingCoverage` | lettersmith/paging.py:51-54 | concatenating the page lists of the documents, in order, gives back the stubs |
| `Paging.ChunkCountIsCountPages` | lettersmith/paging.py:15-21 | the number of chunks of `s` is what `count_pages(len(s), k)` returns |
| `Paging.ChunkIsSlicePage` | lettersmith/paging.py:24-28 | chunk `i` of `s` is what `slice_page(s, i, k)` returns |
| `Paging.GenPagingCount` | lettersmith/paging.py:47-48 | the number of documents is `count_pages(len(stubs), per_page)`, and there are none exactly when there are no stubs |
| `Paging.GenPagingMeta` | lettersmith/paging.py:55-60 | document `i` has `page_n == i + 1`, `page_count == count_pages(len(stubs), per_page)`, the caller's `per_page`, and `page_list == slice_page(stubs, i, per_page)` |
| `Paging.GenPagingOutputPath` | lettersmith/paging.py:53-63 | document `i` has `id_path == output_path`, and both are the output-path template in force formatted with page number `i + 1` |
| `Paging.GenPagingFields` | lettersmith/paging.py:49-66 | document `i` has `id_path == output_path`; the path is the caller's template formatted with `i + 1` unless that template is missing or empty, in which case it is `page/<i+1>/index.html`; the title is `Page <i+1>`; the templates are the caller's template followed by `list.html`, `default.html`, or just those two |
| `Paging.DefaultOutputPath` | lettersmith/paging.py:12 | the default template formats page `n` to `page/<n>/index.html` |
| `Paging.DefaultOutputPathsDistinct` | lettersmith/paging.py:53 | under the default template two page numbers give the same path exactly when they are equal |
| `Paging.GenPagingDefaultPathsDistinct` | lettersmith/paging.py:53 | with the default output-path template, two documents of one run share an output path exactly when they are the same document |
| `Paging.SlicesReassemble` | lettersmith/paging.py:15-28 | the slices `slice_page(s, i, p)` for `i` below `count_pages(len(s), p)` concatenate to `s`; each is non-empty and all but the last have length `p` |
| `Paging.TwentyFiveStubs` | lettersmith/paging.py:47-60 | 25 stubs at 10 per page give three documents holding stubs 0-9, 10-19 and 20-24, numbered 1 to 3, each with page count 3 |

## Left out

- The float casts in `count_pages` (lettersmith/paging.py:21) are not modelled. The model computes the exact integer ceiling. Python's `float(length) / float(per_page)` can round wrongly once the operands pass 2^53. For such lengths the Python result may differ from the model's.
- `decorate_group_matching_id_path` (lettersmith/paging.py:7, 39) is not modelled. It lives in `lettersmith/util.py`, which is not part of this model, so what it does cannot be read here. From its name, it is taken to group stubs by id path and call `gen_paging` once per group. The model is of one `gen_paging` call on one group.
- `Doc.doc` (lettersmith/paging.py:8, 61) is treated as a plain record constructor, `Paging.PageDoc`. The document model is not part of this model.
- `Formatting.FormatN` models `str.format(n=n)` only for templates whose replacement fields are all `{n}` and that hold no other brace. Escaped braces (`{{`, `}}`), other field names and format specs are not modelled. Neither are the errors `str.format` raises. For example, a lone `}` makes Python raise `ValueError`, while `FormatN` copies any other `{` or `}` as text. Only `Formatting.FormatNLiteral`, `Formatting.FormatOneField` and `Paging.DefaultOutputPath` claim agreement with `str.format`, and only for text free of both braces. `Paging.GenPagingFields` and `Paging.GenPagingOutputPath` give `FormatN` of whatever template the caller passes. For a template with any brace other than `{n}`, such as `"x/{page}.html"` or `"a}b"`, Python raises an error or formats it differently, while the model still builds the document.
- `Paging.GenPaging` fails with `NonPositivePageSize` for a page size below 1. This is an assumption. `util.chunk` is in `lettersmith/util.py`, which is not part of this model. The model assumes `chunk` rejects a size below 1. A `chunk` that fills a list until its length reaches `n` would instead return one group holding every stub.
- Keyword-argument defaults (`per_page=10`, `template=None`, `output_path_template=None`) are not modelled as defaults. The model takes every argument explicitly.
- Generator laziness, `islice`/`itertools` streaming and single-pass iterators are not modelled. All sequences are finite and fully materialised. For list and tuple inputs this does not change the values produced. For a shared iterator it does: two `slice_page` calls on one iterator cut from wherever the iterator has got to, not from `page_i * per_page`.
- `PageArithmetic.SlicePage` does not model `islice`'s upper bound of `sys.maxsize` on its indices, or its rejection of non-integer indices.
- The error types of the original are Python exceptions. The model uses an error value and does not model the traceback or the exception message.
