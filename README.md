# A Dafny model of the Alias utility core

This project models five pieces of the Alias C++ utility library and proves properties of them:

- **RSA wrapper** (`crypto/rsa.cpp`):
  - how the raw-pointer encode/decode routines cut the source into blocks sized by the key and the padding;
  - how they add up the per-block output lengths and stop at the first failing call;
  - the ceiling-division buffer sizes of `getEncodeSpaceByDataLen` and `getDecodeSpaceByDataLen`;
  - the two `BufferPtr` overloads.
- **MySQL connection wrapper** (`sqlutils/sql_conn.cpp`):
  - the four statement templates, with their `*`/`true` defaults;
  - the length guard in front of the 1024-byte buffer and `snprintf`;
  - the order in which arguments are validated;
  - the two-field connection state that `ConnectSql` and `CloseConn` change.
- **Synchronization wrappers** (`utils/src/mutex.cpp`):
  - how `Mutex`, `RecursiveMutex` and `RWMutex` turn pthread return codes into success, a thrown `Exception` or a printed warning;
  - the `~Mutex` EBUSY loop;
  - the EINTR retry loops of `Sem`;
  - the deadline arithmetic of `Sem::timedwait`;
  - the named/anonymous bookkeeping of `Sem`.
- **ByteBuffer** (`utils/include/utils/buffer.h`): the inline `resize` and accessors.
- **XmlConfig::lookup** (`config/XmlConfig.h`): a map lookup with a default and a cast that may fail.

Code outside this model is a parameter: OpenSSL, the MySQL client, the pthread and semaphore calls, and the clock.

- Each OpenSSL call is an oracle `Block -> int`. It maps the (offset, length) of the source bytes it is handed to the length it reports; a negative length is a failure.
- Each MySQL call is a boolean saying whether it succeeds.
- Each pthread or semaphore call is the return code (or sequence of return codes) it delivers.
- `clock_gettime` is the `now` argument of `Mutex.TimedWait`.

A C pointer becomes `Option<string>` (for strings) or a boolean recording whether it is non-null. The status codes of `utils/Errors.h` become the `Errors.Status` datatype. That header is not part of this model; error codes are taken to be negative integers, as the `encodeSize > 0` test in the `BufferPtr` overload relies on.

Modules: `Errors` (errors.dfy), `Rsa` (rsa.dfy), `SqlConn` (sql_conn.dfy), `Mutex` (mutex.dfy, which covers both the mutexes and `Sem`), `Buffer` (buffer.dfy) and `XmlConfig` (xml_config.dfy).

## Model

| member | source | states |
|---|---|---|
| Rsa.PlainBlockSize | crypto/rsa.cpp:90-105 | The plaintext block is k-11 bytes for PKCS#1, k for no padding and k-2 for X9.31; any other padding has no block size. The block never exceeds k. |
| Rsa.CeilDiv | crypto/rsa.cpp:446-449 | The quotient plus one on a remainder is the ceiling: (r-1)·d < n ≤ r·d, and r is 0 exactly when n is 0. |
| Rsa.Chunks | crypto/rsa.cpp:111-127 | The blocks the loop cuts start at the start of the source, and the last one ends at its end. |
| Rsa.ChunksShape | crypto/rsa.cpp:111-127 | The blocks are contiguous from the start. Every block but the last is exactly the block size, the last has 1..size bytes, and together they end at the end of the source. |
| Rsa.ChunksCoverSource | crypto/rsa.cpp:111-127 | The block lengths add up to srcLen. |
| Rsa.ChunksCount | crypto/rsa.cpp:111-127 | There are ceil(srcLen / size) blocks. |
| Rsa.Feed | crypto/rsa.cpp:112-135 | The call/fail/advance loop's total. A failure needs a non-empty schedule, and a success on a non-empty schedule means its first block succeeded. Rsa.FeedSucceeds gives the exact condition for failure. |
| Rsa.FeedSucceeds | crypto/rsa.cpp:112-135 | The routines' total is defined exactly when no block fails, and is then the sum of the per-block output lengths. |
| Rsa.FeedStopsAtFirstFailure | crypto/rsa.cpp:112-117 | On failure, the calls made are a prefix of the blocks. It ends at the first failing block; the blocks before it succeeded and nothing after it is attempted. |
| Rsa.FeedBlocks | crypto/rsa.cpp:106-135 | The shared while loop plus final call returns exactly the total of the block schedule (None at the first failure). The calls it makes are exactly the attempted prefix of that schedule. |
| Rsa.PublicEncode | crypto/rsa.cpp:85-136 | A null out/src or srcLen 0 gives INVALID_PARAM, and an unknown padding gives UNKNOWN_ERROR, both with no call made. Otherwise the result is the summed total over the plaintext blocks of the public key, or UNKNOWN_ERROR at the first failing block. |
| Rsa.PublicDecode | crypto/rsa.cpp:163-198 | A null out/src or srcLen 0 gives INVALID_PARAM with no call made. Otherwise the result is the summed total over public-key-size blocks and a final remainder of 1..k bytes, or UNKNOWN_ERROR at the first failure. |
| Rsa.PrivateEncodeAsWritten | crypto/rsa.cpp:231-282 | The same argument and padding errors as publicEncode. The blocks fed are the chunk schedule of the private key, with the final call also given a full metaSize bytes. |
| Rsa.PrivateEncode | crypto/rsa.cpp:231-282 | The corrected routine: the same errors, and the same chunk schedule as publicEncode over the private key's plaintext blocks. |
| Rsa.PrivateDecode | crypto/rsa.cpp:294-328 | A null out/src or srcLen 0 gives INVALID_PARAM. Otherwise the result is the summed total over private-key-size blocks and a final remainder of 1..k bytes, or UNKNOWN_ERROR at the first failure. |
| Rsa.PrivateEncodeOverreads | crypto/rsa.cpp:259-273 | Whenever srcLen is not a multiple of metaSize, the as-written final call reaches past the end of the source. Every block of the corrected schedule lies inside [0, srcLen). |
| Rsa.PrivateEncodeOverreadExample | crypto/rsa.cpp:273 | With a 117-byte block and one source byte, the single call is handed 117 bytes. |
| Rsa.GetDecodeSpaceByDataLen | crypto/rsa.cpp:423-452 | An unknown padding gives 0. |
| Rsa.GetEncodeSpaceByDataLen | crypto/rsa.cpp:454-486 | An unknown padding gives 0. |
| Rsa.EncodeSpaceCountsChunks | crypto/rsa.cpp:479-485 | With the flag clear, the encode space is one private-key-size block per plaintext chunk of the private key, which is privateEncode's schedule. It equals publicEncode's when the two key sizes agree. |
| Rsa.EncodeSpaceKeySwap | crypto/rsa.cpp:457-461 | The `priKeyEncode` flag selects the PUBLIC key's size, and its absence selects the private key's. |
| Rsa.EncodeTotalMatchesSpace | crypto/rsa.cpp:479-485 | If every block encrypts to exactly k bytes and both keys have size k, publicEncode returns exactly getEncodeSpaceByDataLen(srcLen). |
| Rsa.DecodeTotalWithinSpace | crypto/rsa.cpp:423-452 | If every block decrypts to at most one plaintext block, publicDecode's total fits in getDecodeSpaceByDataLen(srcLen). |
| Rsa.PublicEncodeToBuffer | crypto/rsa.cpp:138-148 | A null source or length 0 gives null. Otherwise it asks for encode space + 1 bytes, added in uint32 so that it wraps to 0 at space 2^32 - 1, and returns the buffer only when publicEncode's result is a positive byte count, else null. |
| Rsa.PublicDecodeToBuffer | crypto/rsa.cpp:200-214 | A null source or length 0 gives null. Otherwise it always returns the buffer, sized decode space + 1 (added in uint32, wrapping to 0 at space 2^32 - 1) and carrying whatever publicDecode returned, errors included. |
| SqlConn.SelectFmtIsSource | sqlutils/sql_conn.cpp:15 | The select template renders to the source's format string, of length 28. |
| SqlConn.InsertFmtIsSource | sqlutils/sql_conn.cpp:14 | The insert template renders to the source's format string, of length 25. |
| SqlConn.UpdateFmtIsSource | sqlutils/sql_conn.cpp:16 | The update template renders to the source's format string, of length 27. |
| SqlConn.DeleteFmtIsSource | sqlutils/sql_conn.cpp:17 | The delete template renders to the source's format string, of length 24. |
| SqlConn.Snprintf | sqlutils/sql_conn.cpp:115 | snprintf with size n keeps a prefix of at most n-1 characters, and keeps the whole text exactly when it has at most n-1 characters. |
| SqlConn.SelectTextIs | sqlutils/sql_conn.cpp:115 | The select text is "select " + (value or "*") + " from " + table + " where(" + (cond or "true") + ");". |
| SqlConn.InsertTextIs | sqlutils/sql_conn.cpp:145 | The insert text is "insert into " + table + " value(" + value + ");". |
| SqlConn.UpdateTextIs | sqlutils/sql_conn.cpp:169 | The update text is "update " + table + " set " + value + " where(" + cond + ");". |
| SqlConn.DeleteTextIs | sqlutils/sql_conn.cpp:192 | The delete text is "delete from " + table + " where(" + cond + ")"; it ends in ')', with no semicolon. |
| SqlConn.SelectLen | sqlutils/sql_conn.cpp:107-108 | The guard's len is the select text's length plus 6, modulo 2^32. |
| SqlConn.InsertLen | sqlutils/sql_conn.cpp:137-138 | The guard's len is the insert text's length plus 4, modulo 2^32. |
| SqlConn.UpdateLen | sqlutils/sql_conn.cpp:161-162 | The guard's len is the update text's length plus 6, modulo 2^32. |
| SqlConn.DeleteLen | sqlutils/sql_conn.cpp:185 | The guard's len is the delete text's length plus 4, modulo 2^32. |
| SqlConn.SelectGuardSound | sqlutils/sql_conn.cpp:106-115 | len is the select text's length plus 6. Whenever the guard `len > 1024` lets a query through, snprintf does not truncate it. |
| SqlConn.InsertGuardSound | sqlutils/sql_conn.cpp:137-145 | len is the insert text's length plus 4. Whenever `len >= 1024` lets a query through, nothing is truncated. |
| SqlConn.UpdateGuardSound | sqlutils/sql_conn.cpp:161-169 | len is the update text's length plus 6. Whenever `len >= 1024` lets a query through, nothing is truncated. |
| SqlConn.DeleteGuardSound | sqlutils/sql_conn.cpp:185-192 | len is the delete text's length plus 4. Whenever `len >= 1024` lets a query through, nothing is truncated. |
| SqlConn.MySqlConn.constructor | sqlutils/sql_conn.cpp:23-28 | The handle is whatever mysql_init gave, and the connection flag is clear. |
| SqlConn.MySqlConn.Connecting | sqlutils/sql_conn.cpp:30-49 | The flag is set only when init and connect both succeed with non-null credentials; no error is reported. |
| SqlConn.MySqlConn.ConnectSql | sqlutils/sql_conn.cpp:65-88 | Checks in order: null credentials (INVALID_PARAM, nothing changes), already connected (INVALID_OPERATION, nothing changes), a failed re-init of a null handle (NO_MEMORY), a failed connect (UNKNOWN_ERROR). OK is returned exactly when the flag goes from clear to set. |
| SqlConn.MySqlConn.CloseConn | sqlutils/sql_conn.cpp:223-228 | mysql_close is called, then the handle is null and the flag is clear. |
| SqlConn.MySqlConn.SelectSql | sqlutils/sql_conn.cpp:97-124 | A null table gives INVALID_PARAM before the flag is looked at; a clear flag gives NO_INIT. `len > 1024` gives NO_MEMORY. Otherwise the snprintf'd select text is sent, and the result is OK or UNKNOWN_ERROR. |
| SqlConn.MySqlConn.InsertSql | sqlutils/sql_conn.cpp:132-154 | A null table or value gives INVALID_PARAM, and `len >= 1024` gives NO_MEMORY. Otherwise the insert text is sent. The connection flag is never consulted. |
| SqlConn.MySqlConn.UpdateSql | sqlutils/sql_conn.cpp:156-178 | A null table, value or cond gives INVALID_PARAM, and `len >= 1024` gives NO_MEMORY. Otherwise the update text is sent. The connection flag is never consulted. |
| SqlConn.MySqlConn.DeleteSql | sqlutils/sql_conn.cpp:180-200 | A null table or cond gives INVALID_PARAM, and `len >= 1024` gives NO_MEMORY. Otherwise the delete text is sent. The connection flag is never consulted. |
| SqlConn.ReconnectAfterClose | sqlutils/sql_conn.cpp:75-80 | After CloseConn, a ConnectSql with valid credentials calls mysql_init again. If mysql_init fails, the result is NO_MEMORY with no connect call and the object stays closed. Otherwise it connects, and succeeds exactly when the connect does. |
| Mutex.MutexLock | utils/src/mutex.cpp:51-65 | EDEADLK and only EDEADLK raises the deadlock fault. EOWNERDEAD is repaired (consistent) and reported as 0; every other code is passed through. |
| Mutex.RecursiveLock | utils/src/mutex.cpp:105-117 | It never throws; it returns 0 exactly for 0 and EOWNERDEAD, and repairs exactly on EOWNERDEAD. |
| Mutex.RecursiveLockAgrees | utils/src/mutex.cpp:51-65 | The two lock wrappers agree on every code except EDEADLK, which only Mutex turns into a fault. |
| Mutex.Unlock | utils/src/mutex.cpp:67-73 | It never reports failure. 0 and EPERM are silent, and any other code is printed. |
| Mutex.DestroyMutex | utils/src/mutex.cpp:34-44 | It repeats destroy while destroy returns EBUSY, unlocking between attempts. It returns the first non-EBUSY result, after exactly destroy, (unlock, destroy)×k for k EBUSY results. |
| Mutex.RdLock | utils/src/mutex.cpp:147-157 | It completes exactly for 0 and EAGAIN, and throws on every other code. |
| Mutex.WrLock | utils/src/mutex.cpp:159-168 | It completes exactly for 0, and throws on any nonzero code. |
| Mutex.RwUnlock | utils/src/mutex.cpp:170-184 | It completes exactly for 0, and throws on any nonzero code. |
| Mutex.RdLockMoreLenient | utils/src/mutex.cpp:147-168 | Whatever wlock accepts, rlock accepts, and EAGAIN is accepted only by rlock. |
| Mutex.RetryOnEintr | utils/src/mutex.cpp:228-253 | It calls again exactly while a call returns -1 with EINTR. It makes first-settled + 1 calls and returns true exactly when that first settled result is 0. |
| Mutex.DeadlineAsWritten | utils/src/mutex.cpp:258-265 | The deadline as written: the seconds grow by ms/1000 plus a carry of 0 or 1, and from a valid now, tv_nsec ends in [0, 10^9], which includes 10^9. |
| Mutex.Deadline | utils/src/mutex.cpp:258-265 | The deadline with the carry taken at 10^9: the same seconds growth, and from a valid now, always a valid timespec. |
| Mutex.DeadlineAsWrittenBounds | utils/src/mutex.cpp:258-265 | The deadline is exactly ms·10^6 ns after now, and its seconds grow by ms/1000 plus a carry of 0 or 1. As written, tv_nsec ends in [0, 10^9], which includes 10^9. |
| Mutex.DeadlineAsWrittenInvalid | utils/src/mutex.cpp:262 | now.tv_nsec = 10^6 with ms = 999 leaves tv_nsec at exactly 10^9, which is not a valid timespec. |
| Mutex.DeadlineValid | utils/src/mutex.cpp:258-265 | With the carry taken at 10^9, the deadline is the same instant, with the same seconds growth, and is always a valid timespec. |
| Mutex.TimedWait | utils/src/mutex.cpp:256-272 | The step-by-step expire equals the corrected deadline and is valid. The result is true exactly when the first non-EINTR sem_timedwait result is 0. |
| Mutex.OpenNamedAsWritten | utils/src/mutex.cpp:186-200 | A null path throws, and a failed sem_open throws. Otherwise the object is named, and its mFilePath is left empty. |
| Mutex.OpenNamed | utils/src/mutex.cpp:186-200 | The corrected constructor: the same faults, and mFilePath records the path opened. |
| Mutex.OpenAnonymous | utils/src/mutex.cpp:202-213 | It throws exactly when the allocation fails; otherwise it returns the anonymous object, with an empty path. A failed sem_init after a successful allocation prints a warning, and only then; the object is built all the same. |
| Mutex.Teardown | utils/src/mutex.cpp:215-224 | A named semaphore is closed and its mFilePath unlinked; an anonymous one is destroyed and deleted. |
| Mutex.NamedTeardownAsWritten | utils/src/mutex.cpp:186-219 | As written, a named semaphore opened on any path unlinks the empty path when destroyed, never the path it opened. |
| Mutex.NamedTeardownUnlinksOpenedPath | utils/src/mutex.cpp:186-219 | Corrected, destroying a named semaphore unlinks exactly the path it opened. |
| Buffer.ResizeState | utils/include/utils/buffer.h:49 | The data size becomes min(sz, capacity): at most both, and equal to one of them. Storage and capacity are unchanged. |
| Buffer.ResizeIdempotent | utils/include/utils/buffer.h:49 | Resizing twice equals resizing once, and the result does not depend on the previous data size. |
| Buffer.ResizeIsMin | utils/include/utils/buffer.h:49 | A size within the capacity is taken as is; a larger one stops at the capacity. |
| Buffer.ByteBuffer.Data | utils/include/utils/buffer.h:41-43 | data(), const_data() and begin() are null exactly when no storage is allocated, and otherwise point at its start. |
| Buffer.ByteBuffer.End | utils/include/utils/buffer.h:44 | end() is null exactly when no storage is allocated, and otherwise is begin + size - 1. |
| Buffer.ByteBuffer.Size | utils/include/utils/buffer.h:47 | size() is the data size field. |
| Buffer.ByteBuffer.Capacity | utils/include/utils/buffer.h:46 | capacity() is the capacity field. |
| Buffer.ByteBuffer.Resize | utils/include/utils/buffer.h:49 | The new fields are ResizeState of the old ones. The storage pointer and the capacity are unchanged, and size ≤ capacity afterwards. |
| Buffer.EndFollowsBegin | utils/include/utils/buffer.h:43-44 | With storage allocated, end() lies size-1 elements after begin(); for an empty buffer, end() lies before begin(). |
| Buffer.ResizeTwice | utils/include/utils/buffer.h:49 | A caller's view of Buffer.ResizeIdempotent on the object: two successive resize(sz) calls leave the fields that one call leaves. |
| XmlConfig.Lookup | config/XmlConfig.h:27-41 | An absent key gives defaultVal. A present key gives the cast of its stored text, or defaultVal when the cast throws. |
| XmlConfig.LookupCases | config/XmlConfig.h:27-41 | The result is always either defaultVal or the cast of the text stored under the key. |
| XmlConfig.LookupRoundTrip | config/XmlConfig.h:34-36 | A value stored as text that the cast reads back is returned, whatever the default. |
| XmlConfig.LookupOtherKey | config/XmlConfig.h:29 | Storing under one key does not change what lookup finds under another. |

## Left out

- OpenSSL itself (`GenerateKey`, `reinit`, `destroy`, key file I/O, the `RSA_*` calls and `ERR_get_error`) is an oracle. The oracle is a function of the block, so it cannot model an OpenSSL call whose result depends on earlier calls.
- The `BufferPtr privateEncode/privateDecode` and `int privateEncode/privateDecode(ByteBuffer&, ...)` overloads (crypto/rsa.cpp:284-292, 330-338) have empty bodies and no return value, so there is no behaviour to model.
- The `ByteBuffer&` overloads of publicEncode/publicDecode call `setDataSize`, which buffer.h does not declare. The model also does not capture what the `BufferPtr` overloads' `ByteBuffer` holds: the `storage` parameter stands for `ptr->data()` being non-null.
  - By `Buffer.ResizeState`, `resize` never grows storage, so the size those overloads request reserves nothing on its own. The ByteBuffer constructors are not part of this model.
- Rsa.PublicEncode: the running `int` total (`totalEncodeSize`, `totalDecodeSize`) is kept unbounded, so a signed overflow past 2^31 is not modelled. The same holds for the other raw-pointer routines.
- Rsa.PublicEncode: the plaintext block size is required to be positive (`BlockSizeOk`): k > 11 under PKCS#1, k > 2 under X9.31, k > 0 raw. For a smaller key the model promises nothing. The source's behaviour there is not a cut into blocks:
  - when the block is 0, `while (srcLen > realLen)` makes no progress and loops for as long as the calls succeed;
  - when the block is negative, the comparison converts it to a huge unsigned value, so the loop is normally skipped and one call gets all srcLen bytes.

  The same requirement applies to Rsa.PrivateEncodeAsWritten, Rsa.PrivateEncode, Rsa.GetEncodeSpaceByDataLen, Rsa.PublicEncodeToBuffer (for both keys) and the lemmas about them.
- Rsa.PublicDecode: the key size is required to be positive (`KeySizeOk`), since the decode routines cut by it. The same holds for Rsa.PrivateDecode, Rsa.GetDecodeSpaceByDataLen and Rsa.PublicDecodeToBuffer.
- Rsa.GetEncodeSpaceByDataLen: the product is taken modulo 2^32, as the `uint32_t` return converts it. The signed `int` overflow on the way is treated as wrapping. The same holds for Rsa.GetDecodeSpaceByDataLen.
- Rsa.EncodeTotalMatchesSpace: it holds under the premise that the product does not wrap modulo 2^32. Rsa.DecodeTotalWithinSpace and Rsa.EncodeSpaceCountsChunks likewise.
- SqlConn.SelectGuardSound: `len` is a `uint32_t` sum, taken modulo 2^32 in `SelectLen`. The no-truncation property is proved only when that sum of string lengths does not wrap; for strings of 4 GiB the source's guard can itself be fooled. The same holds for SqlConn.InsertGuardSound, SqlConn.UpdateGuardSound and SqlConn.DeleteGuardSound.
- SqlConn.SelectLen: `strlen` is modelled as the length of a Dafny `string`. That is the source's count only when each character stands for one byte and the text holds no NUL (a C string ends at its first NUL). The same holds for SqlConn.InsertLen, SqlConn.UpdateLen and SqlConn.DeleteLen, and for the texts that `Snprintf` copies.
- SqlConn.MySqlConn.InsertSql: after CloseConn the handle is null, and the source still passes it to `mysql_query` (sqlutils/sql_conn.cpp:145-150), which is undefined behaviour. The model does not check the handle and lets the `queryOk` outcome decide. The same holds for SqlConn.MySqlConn.UpdateSql (sqlutils/sql_conn.cpp:169-174) and SqlConn.MySqlConn.DeleteSql (sqlutils/sql_conn.cpp:192-196).
- The MySQL client (`mysql_init`, `mysql_real_connect`, `mysql_query`, `mysql_close`) is modelled by boolean outcomes. The ip and port arguments, the `static` buffers' contents and the log output are not modelled.
- `getAffectedRows`, `getSqlRes` and the `MySqlRes` getters depend on conversions (`TypeUtil::Atoi/Atof`, `Str2Time`, floating point) that are not part of this model.
- `~MySqlConn` (a bare `mysql_close`) is left out because the model has no destructors.
- Concurrency is left out: blocking, mutual exclusion, waiting, and which thread owns a lock. Only the sequential handling of return codes is modelled.
- `trylock`, `setMutexName` and the constructors' `pthread_*attr` set-up are left out; they pass codes through or configure the OS object.
- The debug-only `mReadLocked`/`mWritLocked` flags of `RWMutex`, and `assert(ret == 0)` in `~Mutex` (an abort in debug builds only), are left out. `Mutex.DestroyMutex` returns `ret` instead.
- Mutex.DestroyMutex: it requires that destroy eventually returns something other than EBUSY; the source loops forever otherwise. Mutex.RetryOnEintr and Mutex.TimedWait likewise require that some call is not interrupted.
- Mutex.TimedWait: `tv_sec` is unbounded (no `time_t` overflow). The `#else` branch for platforms without `_POSIX_C_SOURCE >= 200112L`, which always returns false, is left out.
- Mutex.OpenNamed: the initial count `val` and the O_CREAT/mode arguments of sem_open, and the count `valBase` of the anonymous semaphore, are OS state. The model does not track the semaphore's value.
- The full XmlConfig set (`loadFile`, `parse`, `loadXml`, `foreach`, the mutex) is left out: it is XML parsing and I/O into `m_xmlMap`. `TypeCast::type_cast` is not part of this model and is a parameter.
- `CodeConvert`, bitmap.h, dir.h, kcp_config.h, String8 and the list test are left out because they have no implementation to model.

## Findings

| source | as written | input that shows it | evidently intended | confidence | as-written member | corrected member |
|---|---|---|---|---|---|---|
| crypto/rsa.cpp:273 | The final `RSA_private_encrypt` is handed `metaSize` bytes rather than the `srcLen` bytes that remain | PKCS#1, a 128-byte private key, srcLen = 1: the one call reads 117 bytes from a 1-byte source | Pass the remaining `srcLen`, as publicEncode does at crypto/rsa.cpp:127 | not executed | Rsa.PrivateEncodeAsWritten, Rsa.PrivateEncodeOverreads, Rsa.PrivateEncodeOverreadExample | Rsa.PrivateEncode |
| utils/src/mutex.cpp:262 | The carry is taken only when `tv_nsec > 10^9`, so a sum of exactly 10^9 stays | now.tv_nsec = 1000000, ms = 999: tv_nsec becomes 1000000000, which sem_timedwait rejects with EINVAL | Carry when `tv_nsec >= 10^9`, keeping tv_nsec < 10^9 | not executed | Mutex.DeadlineAsWritten, Mutex.DeadlineAsWrittenBounds, Mutex.DeadlineAsWrittenInvalid | Mutex.Deadline, Mutex.DeadlineValid, Mutex.TimedWait |
| utils/src/mutex.cpp:186-200, 217-219 | The named constructor never assigns `mFilePath`, so `~Sem` calls `sem_unlink("")` | any path, e.g. "/sem": the destructor unlinks "" and the named semaphore "/sem" is never removed | Store `semPath` in `mFilePath` so the destructor unlinks the semaphore it opened | not executed | Mutex.OpenNamedAsWritten, Mutex.NamedTeardownAsWritten | Mutex.OpenNamed, Mutex.NamedTeardownUnlinksOpenedPath |
