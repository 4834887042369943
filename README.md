# ngx_ctpp2 core in Dafny

ngx_ctpp2 is an nginx filter module that renders a response body with a CT++ template.
The template is either loaded once at configuration time, or named by a path that
the header filter records. In the second case, the loader filter in
`ngx_http_ctpp2_tmpl_loader.c` reads that file and puts it in front of the response
chain. The body is JSON data. The filter collects the template and the data into two buffers, checks the
template header, runs the template engine, and sends the engine's output on as the new
body. This project models the parts of the module that the module itself implements:

- **Chunk assembler** (`chunkassembler.dfy`, module `ChunkAssembler`).
  `ngx_http_ctpp2_fillbuffer` copies the unread bytes of a chain of source buffers into
  one fixed-capacity destination. It advances every source buffer's `pos` and answers
  NGX_AGAIN, NGX_OK or NGX_DONE, with `*in` moved to where reading must resume.
  - The method `FillBuffer` works on `Buf` objects over arrays.
  - It is proved against `Fill`, a chunk-by-chunk walk on values.
  - `Fill` is proved equal to a closed form: `FillOutcome`, `Taken`, `Gain` and `After`.
  - `*in` is an index into the chain, and the chain's length stands for NULL.
- **Body filter decisions** (`bodyfilter.dfy`, module `BodyFilter`).
  - The data-buffer size chosen by the header filter.
  - What one call of `ngx_http_ctpp2_body_filter` does with the fill results.
  - Each call ends in one of five ways: wait for more input, go on to the data, render,
    fail, or report a data-buffer overflow.
  - `BodyFilterCall` models the filter as written. With its `corrected` flag set, the
    data stage is the corrected one from "## Findings".
  - A flush buffer is an empty buffer without the end-of-stream mark. On chains without
    flush buffers, the two data stages decide alike (`AsWrittenAgrees`).
- **Template header check** (`templateheader.dfy`, module `TemplateHeader`).
  - `ctpp2_tmpltest` works over a record of the header fields it reads.
  - The CRC-32 function is a parameter.
  - The IEEE 754 canary is compared as its 64-bit pattern.
- **Output collector** (`outputcollector.dfy`, module `OutputCollector`).
  - `NginxOutputCollector` is a class over a chain of buffers, with a running total.
  - `Collect` fills the tail and links fresh page-sized buffers.
  - Allocation failure is modelled by a pool that grants a fixed number of further
    allocations.
- **ctpp2_process output** (`process.dfy`, module `Ctpp2Process`).
  - The data buffer is emptied and becomes the first output link.
  - The engine's writes go through the collector.
  - The chain, or nothing, is handed back with its size.
  - The JSON parser and the template VM are parameters: whether parsing succeeds, the
    byte strings the VM writes, and whether the VM fails afterwards.
- **Header lookup** (`headers.dfy`, module `Headers`).
  `ngx_http_ctpp2_get_tmpl_header` walks the parts of the response header list, finds
  the first key equal to the configured name up to ASCII case, and zeroes its hash.
- **String helpers** (`ngxstrings.dfy`, module `NgxStrings`).
  `ngx_strprepend_nulled` and `ngx_strterminate` write NUL-terminated copies into fresh
  pool blocks.
- **Log levels** (`loglevels.dfy`, module `LogLevels`).
  `NginxLogger::Trans` and `revTrans` map between library priorities and nginx levels.

`ngxcore.dfy` (module `NgxCore`) holds what the others share:

- the nginx buffer (`Buf`: a memory block with `pos` and `last`);
- the pool;
- the return codes;
- the bytes `pos..last` of a buffer (`Written`);
- one copy loop standing in for `ngx_memcpy` and `ngx_cpymem` (`Copy`);
- `Append`, which copies after `last`;
- the flattening of a sequence of byte runs.

When the data buffer has no room at all, a write spills entirely into page-sized
buffers. The first link then stays empty, so `ctpp2_process` reports no output even
though the engine wrote some. `Ctpp2Process.Process` states this case as it is. With a
Content-Length of 0, any body byte is an overflow, so rendering starts only on an empty
body. The engine then runs only if the library's JSON parser accepts an empty buffer,
and that parser is not part of this model.

## Model

| member | source | states |
|---|---|---|
| ChunkAssembler.FillBuffer | sources/ngx_http_ctpp2_filter_module.c:380-426 | the return code and new `*in` are the walk's outcome; the destination gains exactly the walk's copied bytes after its old content, and the rest of its block is unchanged; each source `pos` advances by exactly the bytes taken from that chunk |
| ChunkAssembler.CopyChunk | sources/ngx_http_ctpp2_filter_module.c:392-396 | copies min(room left, unread bytes of the chunk) of the chunk's unread bytes right after what was already copied, leaving the rest of the block alone |
| ChunkAssembler.Take | sources/ngx_http_ctpp2_filter_module.c:392-415 | one pass of the loop: at most min(room left, unread bytes) of the chunk are copied; when that fills the destination the chunk's `pos` is untouched and the walk stops at this chunk, otherwise the chunk is drained, its `pos` moves to its end and the walk goes on with the next chunk or ends after the last one |
| ChunkAssembler.Walk | sources/ngx_http_ctpp2_filter_module.c:387-417 | the loop either stops full at chunk k with the copied bytes, destination block and earlier chunks' positions as the walk prescribes, or drains every chunk, with the outcome NGX_DONE or NGX_AGAIN by the last chunk's mark |
| ChunkAssembler.FillFull | sources/ngx_http_ctpp2_filter_module.c:398-410 | when the destination becomes full, `last` moves to the end and the chunk's `pos` advances by the bytes copied from it; a drained, marked chunk gives NGX_DONE; a drained, unmarked chunk gives NGX_OK with `*in` on the next chunk; a partly read chunk gives NGX_OK with `*in` on that chunk |
| ChunkAssembler.FillMatches | sources/ngx_http_ctpp2_filter_module.c:389-425 | the loop's walk agrees with the closed form on every input: outcome `FillOutcome`, copied bytes = the first min(room, total) unread bytes, bytes taken from chunk k = `Taken(room, cs, k)` |
| ChunkAssembler.FillOutcome | sources/ngx_http_ctpp2_filter_module.c:398-425 | `*in` stays within the chain; a chain smaller than the room gives NGX_DONE or NGX_AGAIN with `*in` NULL; otherwise NGX_DONE or NGX_OK |
| ChunkAssembler.FillStopsAt | sources/ngx_http_ctpp2_filter_module.c:398-410 | when the destination fills during chunk k, the copied bytes are the first `room` unread bytes, earlier chunks are taken whole, later ones not at all, and the result follows how much of chunk k was taken and its mark |
| ChunkAssembler.FillDrains | sources/ngx_http_ctpp2_filter_module.c:411-425 | when everything fits, every chunk is drained, all unread bytes are copied, and the result is NGX_DONE or NGX_AGAIN by the last chunk's mark, with `*in` NULL |
| ChunkAssembler.Leftover | sources/ngx_http_ctpp2_filter_module.c:400-410 | after NGX_OK the chain from the new `*in` holds exactly the bytes that did not fit: nothing lost, nothing read twice |
| ChunkAssembler.Rest | sources/ngx_http_ctpp2_filter_module.c:401-411 | a chunk after the call keeps its mark and has lost exactly the bytes taken from it |
| ChunkAssembler.StopUnique | sources/ngx_http_ctpp2_filter_module.c:398 | the chunk during which the destination fills is the only chunk whose end reaches the room while the previous end does not |
| BodyFilter.DataBufferSize | sources/ngx_http_ctpp2_filter_module.c:228-237 | the data buffer is as large as the Content-Length, or the configured `ctpp2_data_buffer` when the length is unknown (-1) |
| BodyFilter.BufferSizing | sources/ngx_http_ctpp2_filter_module.c:228-237 | with an honest Content-Length and the whole body in one call, the data stage never reports an overflow; without one, it reports an overflow exactly when the body exceeds `ctpp2_data_buffer`. Proved for the corrected filter on every well-formed chain, and for the filter as written on chains without flush buffers |
| BodyFilter.TemplateStage | sources/ngx_http_ctpp2_filter_module.c:300-323 | NGX_AGAIN waits; NGX_OK with a rejected template fails; an accepted template goes on to the data only when a chunk is left; NGX_DONE and every other result fail |
| BodyFilter.DataStageAsWritten | sources/ngx_http_ctpp2_filter_module.c:327-343 | the data stage as written: NGX_AGAIN waits, NGX_DONE renders, NGX_OK with `*in` NULL waits, NGX_OK with an empty marked chunk renders, anything else is an overflow |
| BodyFilter.AsWrittenFalseOverflow | sources/ngx_http_ctpp2_filter_module.c:333-342 | a body that fits exactly, followed by an empty unmarked buffer and the final empty buffer, is reported as an overflow by the data stage and by the whole call as written, although every byte fit; the corrected call renders it |
| BodyFilter.AsWrittenOnlyOverreports | sources/ngx_http_ctpp2_filter_module.c:327-343 | every real overflow is reported by the data stage as written, and where it reports none it agrees with the corrected stage |
| BodyFilter.EndMarkedLeft | sources/ngx_http_ctpp2_filter_module.c:333-336 | when fillbuffer answers NGX_OK with `*in` on an empty end-marked buffer, that buffer is the last of the chain, the chain held exactly the room, and the corrected data stage renders |
| BodyFilter.ExactFillNext | sources/ngx_http_ctpp2_filter_module.c:400-406 | when the chain fits exactly and fillbuffer answers NGX_OK on a chain without flush buffers, `*in` is NULL or the empty final buffer |
| BodyFilter.AsWrittenAgrees | sources/ngx_http_ctpp2_filter_module.c:327-343 | on a well-formed chain without flush buffers the data stage as written decides exactly as the corrected one |
| BodyFilter.DataStage | sources/ngx_http_ctpp2_filter_module.c:327-343 | corrected data stage: after NGX_OK, an overflow only when a chunk from `*in` on still holds bytes; otherwise render when the response has ended, wait when it has not |
| BodyFilter.DataStepDecides | sources/ngx_http_ctpp2_filter_module.c:327-343 | with the corrected data stage, a call overflows exactly when the chain holds more than the room; it renders exactly when everything fits and the response has ended; it waits exactly when everything fits and more may come |
| BodyFilter.BodyFilterCall | sources/ngx_http_ctpp2_filter_module.c:300-343 | one call of the body filter, as written or with the corrected data stage, never ends in "go on"; `template_ready` ends set exactly when it was set or filling the template buffer answered NGX_OK |
| BodyFilter.LeftoverShape | sources/ngx_http_ctpp2_filter_module.c:321-329 | what the template stage leaves for the data stage is a non-empty chain, marked only at its end, ending as the original chain did, holding the bytes after the template, and free of flush buffers when the original chain was |
| BodyFilter.FirstCall | sources/ngx_http_ctpp2_filter_module.c:300-343 | when the chain holds the template and more, a rejected template fails; an accepted one sets `template_ready` and the data stage decides by the count of bytes after the template alone. Proved for the corrected filter, and for the filter as written on chains without flush buffers |
| BodyFilter.TemplateIncomplete | sources/ngx_http_ctpp2_filter_module.c:303-311 | a chain that ends before the template is complete waits while the response goes on, and fails when the response ends there, as written and corrected alike |
| TemplateHeader.TmplTest | sources/ctpp2_process.cpp:107-148 | the header comes back unchanged, or unchanged except for a zero crc field |
| TemplateHeader.CoveredLength | sources/ctpp2_process.cpp:119 | the checksum length is the buffer length held in 32 bits: below 2^32, and equal to the length when the length fits |
| TemplateHeader.TmplTestRc | sources/ctpp2_process.cpp:127-147 | NGX_OK exactly for an accepted template, NGX_ERROR otherwise |
| TemplateHeader.AcceptsExactly | sources/ctpp2_process.cpp:111-147 | the test accepts exactly the compiled templates that are either of version 0, or of the right platform with a right checksum (when checking) and the right canary |
| TemplateHeader.MagicFirst | sources/ctpp2_process.cpp:111-147 | without the magic bytes the template is refused whatever its other fields, the flag and the checksum, and nothing is written |
| TemplateHeader.OldVersionAccepted | sources/ctpp2_process.cpp:116-142 | a compiled template of version 0 is accepted with no platform, checksum or canary check |
| TemplateHeader.PlatformBeforeChecksum | sources/ctpp2_process.cpp:117-131 | a foreign platform is refused whatever the flag, before any checksum work, with the header untouched |
| TemplateHeader.ChecksumStep | sources/ctpp2_process.cpp:118-127 | with checking on, the crc field reads zero afterwards and a wrong checksum is refused; with checking off, the crc field is neither read nor written |
| TemplateHeader.CanaryLast | sources/ctpp2_process.cpp:134-138 | once the earlier checks pass, the canary alone decides |
| OutputCollector.Collector.constructor | sources/ctpp2_process.cpp:27-28 | the chain is the single given link, the total is 0, and the contents are what that link holds |
| OutputCollector.Collector.Collect | sources/ctpp2_process.cpp:279-311 | the total grows by the data's length; success appends exactly the data to the contents, keeps every link within its capacity and only adds page-sized links at the tail; a write that fits, including an empty one, allocates nothing; a failed allocation leaves the pool exhausted and a strict prefix of the data placed |
| OutputCollector.Collector.PutTail | sources/ctpp2_process.cpp:294-296 | the tail gains exactly the piece; the contents grow by it |
| OutputCollector.Collector.Link | sources/ctpp2_process.cpp:306-309 | a new empty page-sized buffer becomes the tail; the contents do not change |
| OutputCollector.Collector.Grow | sources/ctpp2_process.cpp:302-309 | succeeds exactly when the pool grants two allocations; on success one fresh, empty, page-sized link is added after the full tail; on failure the chain is unchanged and the pool is exhausted; the contents do not change |
| OutputCollector.NewPage | sources/ctpp2_process.cpp:303-307 | a fresh empty buffer of page size, or null exactly when the pool cannot grant both the buffer and the link; a success costs two allocations, a failure leaves the pool exhausted |
| OutputCollector.Collector.Round | sources/ctpp2_process.cpp:292-309 | one pass of the loop: the contents grow by the next min(free, remaining) bytes; the loop stops with success exactly when all bytes are placed |
| OutputCollector.Collector.ChainHolds | sources/ctpp2_process.cpp:292-309 | reading the chain link by link gives the collected contents |
| OutputCollector.Collector.FirstEmpty | sources/ctpp2_process.cpp:183-190 | the first link is empty exactly when nothing was collected or it has no room |
| NgxCore.Append | sources/ctpp2_process.cpp:295 | the buffer's written bytes grow by exactly the source bytes, built on the one copy loop `NgxCore.Copy` |
| Ctpp2Process.Process | sources/ctpp2_process.cpp:152-194 | a parse failure, a failed link allocation, a failed write or a failing VM gives NGX_ERROR; otherwise NGX_DONE, with no output exactly when nothing was written or the data buffer has no room; output starts at the data buffer, reads back as all written bytes in order, and has the size `getSize` reports, the sum of the write lengths |
| Headers.GetTmplHeader | sources/ngx_http_ctpp2_filter_module.c:247-274 | returns the first header, in list order, whose key has the name's length and matches it up to ASCII case, and zeroes its hash; returns null exactly when none matches; no other hash changes |
| Headers.FirstMatch | sources/ngx_http_ctpp2_filter_module.c:257-270 | the index found matches and no earlier header does; none found means none matches |
| Headers.CaseEqualIsLowered | sources/ngx_http_ctpp2_filter_module.c:265 | keys match up to case exactly when their lower-case forms are equal; matching is symmetric |
| Headers.NonLettersExact | sources/ngx_http_ctpp2_filter_module.c:265 | a byte that is not an ASCII letter matches only itself |
| NgxStrings.StrPrependNulled | sources/ngx_http_ctpp2_filter_module.c:704-720 | on success `to` holds `what` followed by its old text, the length is the sum of both lengths, and a NUL follows at index `len` in a fresh block; it fails exactly when the pool refuses, leaving `to` as it was |
| NgxStrings.StrTerminate | sources/ngx_http_ctpp2_filter_module.c:723-736 | the length is kept; on success the same text sits in a fresh block followed by a NUL; it fails exactly when the pool refuses, leaving the data pointer as it was |
| NgxStrings.NulledReadsBack | sources/ngx_http_ctpp2_filter_module.c:716-732 | a NUL-terminated copy of text without NUL bytes reads back, as a C string, as that text |
| LogLevels.Trans | sources/ctpp2_process.cpp:59-71 | every priority maps to an nginx level from emergency to debug |
| LogLevels.RevTrans | sources/ctpp2_process.cpp:73-86 | every nginx level maps to a library priority |
| LogLevels.RoundTrips | sources/ctpp2_process.cpp:59-86 | `revTrans(Trans(p)) == p` for the eight priorities, and `Trans(revTrans(l)) == l` for the eight levels |
| LogLevels.UnknownIsDebug | sources/ctpp2_process.cpp:70-85 | an unknown priority is logged at debug level, and an unknown level becomes the debug priority |
| LogLevels.TransMonotone | sources/ctpp2_process.cpp:59-71 | a more urgent priority never maps to a less urgent level |

## Left out

- The template library is not part of this model: the JSON parser, the data tree, the
  bytecode VM, `VMMemoryCore` and `crc32`. `crc32` is a function parameter of
  `TmplTest`. Parsing and the VM's writes are parameters of `Process`.
- The process-wide VM environment of `ctpp2_init`, and the `CTPP2NginxVMEnvironment`
  wrapper, are global state around the library and are not modelled.
- sources/ngx_http_ctpp2_tmpl_loader.c and `ngx_http_ctpp2_load_tmpl` read files through
  the open-file cache. That is I/O and is not part of this model.
- Configuration is not modelled: directives, `merge_loc_conf` and complex values.
- Filter registration, the calls to the next header and body filters,
  `ngx_http_send_special`, request finalization and all logging are not modelled.
  `NginxLogger::WriteLog` is a logging sink and is left out too.
- The rendering step after the data buffer fills is outside `BodyFilterCall`. `Process`
  models the call to `ctpp2_process` and the output size it yields. The header rewrite
  that follows it is not modelled: setting Content-Length, clearing accept ranges and
  sending the headers.
- Ctpp2Process.Process: on NGX_ERROR the source leaves `*out` and `*out_size` unset. The
  model returns an empty chain and 0, which the caller does not read.
- Exceptions in `ctpp2_process` all become NGX_ERROR. Which exception it was only
  changes the log message.
- Memory release is not modelled: `ngx_free_chain`, `ngx_pfree` of the data block,
  and freeing a temporary template buffer.
- The collector's destructor sets the tail's `next` to NULL. The chain is a
  sequence, so it always ends at its last link.
- Integer widths are not modelled. `total` and the lengths are unbounded; `size_t` and
  `UINT_32` overflow cannot occur for realistic sizes. The one width that matters, the
  32-bit checksum length, is modelled by `CoveredLength`.
- TemplateHeader.TmplTest: reads the header fields as given. The source casts
  `tmpl->pos` to the header structure without checking that the buffer is long enough.
  The double canary is compared by its bit pattern; equality with a finite, nonzero
  constant is bit equality.
- LogLevels: the library's priority numbers come from a header that is not part of
  this model. The syslog numbering (0 to 7) is assumed. The round trips need only that
  the eight values are distinct.
- Headers.GetTmplHeader: `ngx_strcasecmp` compares NUL-terminated strings. The model
  compares the `len` bytes of two equal-length keys and takes both to have no NUL
  inside.
- Headers.GetTmplHeader: requires every list part after the first to be non-empty,
  which nginx lists guarantee. The loop reads the first element of a new part before
  it checks the count.
- Ctpp2Process.Process: on NGX_ERROR it states that parsing failed, the VM failed or
  the pool ran out, but not exactly how many allocations the writes need.
- BodyFilter.BufferSizing: for the filter as written, proved only on chains without
  flush buffers. With a flush buffer right after an exact fit, the filter as written
  reports an overflow (`AsWrittenFalseOverflow`).
- BodyFilter.FirstCall: for the filter as written, proved only on chains without flush
  buffers, for the same reason.
- OutputCollector.Collector.Collect: a failed allocation is modelled as the pool
  running out; nginx's other reasons for NULL are not modelled.
- NgxStrings.StrPrependNulled: the same holds for a failed `ngx_pnalloc`.

## Findings

| source | as written | input that shows it | evidently intended | confidence | as-written member | corrected member |
|---|---|---|---|---|---|---|
| sources/ngx_http_ctpp2_filter_module.c:333-342 | after NGX_OK the data stage looks only at the buffer `*in` now points to, and reports an overflow unless it is empty and carries `last_buf`/`last_in_chain` | a body exactly as long as the data buffer, arriving as [3 data bytes, an empty buffer without a mark (a flush), the empty final buffer] with room 3: fillbuffer returns NGX_OK with `*in` on the empty flush buffer, and the filter finalizes with 500 | report an overflow only when bytes are left unread; render once the final buffer is reached with nothing left over | high (proved on the model; not executed) | BodyFilter.DataStageAsWritten, BodyFilter.AsWrittenFalseOverflow | BodyFilter.DataStage, BodyFilter.DataStepDecides |
