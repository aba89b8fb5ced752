# PDF search engine core, modelled in Dafny

This project models `utils.py` of the multi-modal PDF search engine. That file is the part of the system that does more than call libraries. It has three pieces:

- **`VectorStore`** pairs a faiss `IndexFlatL2` with a dictionary `text_lookup` from integer id to text, and a counter `current_id`.
  - `add_texts` gives the texts consecutive ids from the counter, then appends the embedding rows to the index.
  - `search` reads row 0 of the index's `(distances, indices)` answer. It keeps, in order, each entry whose label is a key of `text_lookup`, paired with its distance.
- **`extract_text_from_pdf`** keeps the pages whose `strip()` is non-empty. The pages are returned unstripped and in page order.
- **`process_pdf_folder`** labels each kept page `Source: <name>, Page <n>: <text>`, where `n` counts kept pages from 1. It concatenates the files in listing order. A file whose extraction raises is reported and skipped.

Modules:

- `Selection` (`selection.dfy`): order-preserving filtering (`Filter`, `Positions`) and in-order concatenation (`ConcatMap`), with their lemmas.
- `PyStr` (`pystr.dfy`): Python's `str.isspace` set, `lstrip`/`rstrip`/`strip`, and `str(n)` for naturals with its decimal inverse.
- `FlatIndex` (`flat_index.dfy`): the faiss index as an oracle.
  - It keeps its rows, and `NTotal()` is faiss's `ntotal`.
  - `ValidRow` states what a search row promises: exactly `k` entries, each label `-1` or below `ntotal`.
- `Store` (`vector_store.dfy`): the `VectorStore` class.
  - `Valid()` says the dictionary keys are exactly `0 .. currentId-1`, and key `i` holds the i-th text added (ghost `segments`).
  - `InLockstep()` says the index holds one row per id handed out.
- `PdfText` (`pdf_text.dfy`): page filtering, labelling and folder concatenation.

External calls become inputs:

- A PDF is the sequence of its page texts, or `Raised` when pymupdf fails.
- The folder listing is a sequence of files, in the order `glob` yields them.
- A faiss search answer is a parameter of `VectorStore.Search`, constrained by `ValidRow`.

Three behaviours of the code that the model keeps as written:

- `add_texts` updates the dictionary before the index (the raising path is under "Left out"), and it does not check that the number of embedding rows equals the number of texts. `AddTexts` states exactly how the gap between `ntotal` and `current_id` moves.
- `search` does not sort, break ties, or raise on an unknown id. It keeps faiss's order and silently drops any label missing from `text_lookup`.
- Provenance is carried only inside the label text, with no separate record. Given a file's name, `ReadLabel` recovers the page number and the text from that file's labels. The name itself cannot always be read back, because a file name may contain `, Page 1: ` (`LabelNameAmbiguous`).

## Model

| member | source | states |
|---|---|---|
| `PyStr.Strip` | utils.py:63 | `text.strip()` is a prefix of `text.lstrip()`, so a slice of the text. Everything cut from either end is Python whitespace, and what is left has no whitespace at either end. It is empty exactly when every character is whitespace. |
| `PyStr.NatToDecimal` | utils.py:78 | `str(i + 1)` is a non-empty run of decimal digits with no leading zero; `str(0)` is exactly `"0"`. |
| `PyStr.DecimalRoundTrip` | utils.py:78 | Reading the digits of `str(n)` back gives `n`. |
| `PdfText.ExtractTextFromPdf` | utils.py:57-65 | The page loop returns exactly the pages with a non-empty `strip()`, unstripped and in page order. Every returned page strips to something non-empty. |
| `PdfText.ExtractedPages` | utils.py:60-65 | The returned pages are the pages at ascending indices. An index is among them exactly when its page's `strip()` is non-empty. |
| `PdfText.Label` | utils.py:78 | The f-string starts with `Source: <name>, Page `, continues with exactly `str(page_no)` (decimal digits) and `: `, and ends with the page text unchanged. |
| `PdfText.FileTexts` | utils.py:74-83 | A file whose extraction raises adds nothing. Otherwise the file adds one label per kept page, and the i-th label reads back under the file's name as page i+1 with that page's text. |
| `PdfText.Labelled` | utils.py:77-80 | The `enumerate` comprehension yields one label per kept page. |
| `PdfText.LabelRoundTrip` | utils.py:78 | A label `Source: <name>, Page <n>: <text>` reads back, given the file name, as page number `n` and exactly `text`, for any text. |
| `PdfText.LabelNameAmbiguous` | utils.py:78 | A file named `<name>, Page <n>: <part>` and a file named `<name>` produce the same label for page n: the first with text `<text>`, the second with text `<part>, Page <n>: <text>`. Read under `<name>`, that label gives page n and the longer text. So the file name cannot always be recovered from a label. |
| `PdfText.LabelledPageNumbers` | utils.py:77-80 | Within one file, the i-th kept page is labelled page i+1, so the numbers run 1..m with no gaps. Each label reads back as that page's text. |
| `PdfText.ProcessPdfFolder` | utils.py:68-85 | The loop returns the per-file labelled kept pages, concatenated in listing order. A file whose extraction raises adds nothing. |
| `PdfText.RaisingFileIsSkipped` | utils.py:73-83 | A file whose extraction raises leaves the result as if it were not listed. The files after it are still processed. |
| `PdfText.FolderTextsProvenance` | utils.py:73-81 | The i-th kept page of file f sits right after everything the earlier files produced. It carries f's name and page number i+1, and reads back as that page. |
| `FlatIndex.Rows` | utils.py:43-44 | A 1-D query becomes a batch of one row holding the whole vector. A 2-D query is searched as it is. |
| `FlatIndex.IndexFlatL2.constructor` | utils.py:29 | A new flat index has the given dimension and no rows. |
| `FlatIndex.IndexFlatL2.Add` | utils.py:39 | `index.add` appends every embedding row in order, so `ntotal` grows by the number of rows. |
| `Store.Resolve` | utils.py:48-52 | The search comprehension returns no more entries than the row has. Every text it returns is a stored text. |
| `Store.ResolveIsSelection` | utils.py:48-52 | The comprehension keeps exactly the entries whose label is a dictionary key, in row order. Each result is that key's text with the entry's distance. |
| `Store.ResolveKeepsOrder` | utils.py:48-52 | When faiss returns distances in ascending order, the results' distances ascend too; nothing is re-sorted. |
| `Store.ResolveDropsOnlyPadding` | utils.py:46-52 | When the dictionary keys are exactly the index labels `0 .. ntotal-1`, only the `-1` padding entries are dropped. |
| `Store.ResolveOverEmptyIndex` | utils.py:46-52 | Over an empty index every entry is padding, and no id is negative, so the result is empty for every `k`. |
| `Store.VectorStore.constructor` | utils.py:27-31 | A new store has an empty dictionary, `current_id == 0`, and a fresh empty index of the given dimension. It is valid and in lockstep. |
| `Store.VectorStore.AddTexts` | utils.py:33-39 | Text i gets id `old current_id + i`. The counter grows by the number of texts, and existing entries are unchanged. The key set stays exactly `0 .. current_id-1`, and the index grows by the number of embedding rows. The store stays in lockstep exactly when the row count equals the text count. |
| `Store.VectorStore.Search` | utils.py:41-54 | A 1-D query is searched as a one-row batch, and only row 0 of the answer is read. The result is the filtered row: at most `k` entries, empty over an empty index, and only padding dropped when in lockstep. The store is not changed. |

## Left out

- `TextEncoder` (utils.py:9-23) is a wrapper over a sentence-transformer model that produces floating-point embeddings. Embeddings enter the model as given rows.
- faiss internals are not modelled: L2 ranking, distance values, tie-breaking and the float32 conversion. Search answers are parameters that satisfy `ValidRow`. Distances are carried as `real` and never computed.
- faiss's own argument checks are not modelled: a row width different from the dimension, or `k <= 0`. With a mismatched width, faiss would raise inside `add_texts` after the dictionary had already been updated. The model's `Add` always succeeds.
- The default `k=5` of `search` (utils.py:41) is not modelled: `Search` always takes `k` explicitly, as every caller in the front ends passes it.
- `Store.VectorStore.Search`: requires the query batch to have at least one row. For an empty 2-D batch, `indices[0]` raises `IndexError`, and that path is not modelled.
- pymupdf's `open`/`get_text` and `Path.glob` are file and PDF I/O. A document is its page texts, or `Raised` when pymupdf raises at any point, in which case the whole file is skipped. The listing order is whatever order the input sequence has. The `print` on failure is logging.
- `app.py` and `main.py` (widgets, session state, temporary files, argument parsing, printing and truncating results) are callers, not part of this model. `Store.ThreeTextScenario` only replays their construct-then-`add_texts`-then-`search` sequence on a small example.
