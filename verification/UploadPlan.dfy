/** How an upload is cut into chunks, and where its bytes are staged. */
module UploadPlan {
  import opened Bits

  // ---- Chunks ----

  const MAX_CHUNK: nat := 128 * 1024 * 1024
  const U64_MAX: nat := 0xFFFF_FFFF_FFFF_FFFF

  type u64 = x: int | 0 <= x <= 0xFFFF_FFFF_FFFF_FFFF

  function CeilDiv(a: nat, b: nat): nat
    requires b > 0
  {
    (a + b - 1) / b
  }

  function Min(a: nat, b: nat): nat
  {
    if a < b then a else b
  }

  datatype Range = Range(offset: nat, length: nat)

  /** Where a chunk belongs: `None` when the metadata do not fit together. */
  function ValidatedChunk(index: nat, count: nat, total: nat, chunk: nat): Option<Range>
  {
    if total == 0 || count == 0 || chunk == 0 || chunk > MAX_CHUNK || count != CeilDiv(total, chunk) then None
    else if index * chunk > U64_MAX then None
    else if index >= count || index * chunk >= total then None
    else Some(Range(index * chunk, Min(chunk, total - index * chunk)))
  }

  predicate PlanOk(count: nat, total: nat, chunk: nat)
  {
    total > 0 && 0 < chunk <= MAX_CHUNK && count == CeilDiv(total, chunk)
  }

  /** The end of the first `k` chunks. */
  function Upto(k: nat, total: nat, chunk: nat): nat
  {
    Min(k * chunk, total)
  }

  lemma {:induction false} MulMono(i: nat, j: nat, chunk: nat)
    requires i <= j
    ensures i * chunk <= j * chunk
  {
    if i < j { MulMono(i, j - 1, chunk); }
  }

  lemma CountBounds(count: nat, total: nat, chunk: nat)
    requires PlanOk(count, total, chunk)
    ensures count > 0 && total <= count * chunk && (count - 1) * chunk < total
  {
    var n := total + chunk - 1;
    assert n == chunk * (n / chunk) + n % chunk;
    assert (count - 1) * chunk == count * chunk - chunk;
  }

  /**
    The chunks of a plan cover the file end to end: each starts where the ones before it stop,
    and the last one stops at the end. In `u64` no offset overflows.
   */
  lemma ChunksTile(index: nat, count: nat, total: nat, chunk: nat)
    requires total <= U64_MAX
    ensures ValidatedChunk(index, count, total, chunk).Some? <==> PlanOk(count, total, chunk) && index < count
    ensures ValidatedChunk(index, count, total, chunk).Some? ==>
      var r := ValidatedChunk(index, count, total, chunk).value;
      && r.offset == Upto(index, total, chunk) && r.offset + r.length == Upto(index + 1, total, chunk)
      && 0 < r.length <= chunk
    ensures PlanOk(count, total, chunk) ==> Upto(count, total, chunk) == total
  {
    if PlanOk(count, total, chunk) {
      CountBounds(count, total, chunk);
      assert (index + 1) * chunk == index * chunk + chunk;
      if index < count {
        MulMono(index, count - 1, chunk);
      }
    }
  }

  lemma QuotientBounds(p: nat, chunk: nat)
    requires chunk > 0
    ensures p / chunk * chunk <= p < p / chunk * chunk + chunk
  {
    assert p == chunk * (p / chunk) + p % chunk;
  }

  lemma OneMultipleBelow(p: nat, q: nat, index: nat, chunk: nat)
    requires q * chunk <= p < q * chunk + chunk
    ensures index * chunk <= p < index * chunk + chunk <==> index == q
  {
    if index < q {
      MulMono(index + 1, q, chunk);
      assert (index + 1) * chunk == index * chunk + chunk;
    }
    if q < index {
      MulMono(q + 1, index, chunk);
      assert (q + 1) * chunk == q * chunk + chunk;
    }
  }

  /** Whether byte `p` of the file belongs to a chunk. */
  predicate Covers(index: nat, count: nat, total: nat, chunk: nat, p: nat)
  {
    match ValidatedChunk(index, count, total, chunk)
    case None => false
    case Some(r) => r.offset <= p < r.offset + r.length
  }

  lemma CoversByMultiples(index: nat, count: nat, total: nat, chunk: nat, p: nat)
    requires PlanOk(count, total, chunk) && p < total <= U64_MAX
    ensures Covers(index, count, total, chunk, p) <==> index < count && index * chunk <= p < index * chunk + chunk
  {
    ChunksTile(index, count, total, chunk);
    assert (index + 1) * chunk == index * chunk + chunk;
  }

  lemma QuotientInPlan(p: nat, count: nat, total: nat, chunk: nat)
    requires PlanOk(count, total, chunk) && p < total
    ensures p / chunk < count
  {
    QuotientBounds(p, chunk);
    CountBounds(count, total, chunk);
    if p / chunk >= count { MulMono(count, p / chunk, chunk); }
  }

  lemma ChunkByQuotient(p: nat, q: nat, index: nat, count: nat, total: nat, chunk: nat)
    requires PlanOk(count, total, chunk) && p < total <= U64_MAX && q < count
    requires q * chunk <= p < q * chunk + chunk
    ensures Covers(index, count, total, chunk, p) <==> index == q
  {
    CoversByMultiples(index, count, total, chunk, p);
    OneMultipleBelow(p, q, index, chunk);
  }

  /** Every byte of the file lies in exactly one chunk. */
  lemma ChunkOfByte(p: nat, index: nat, count: nat, total: nat, chunk: nat)
    requires PlanOk(count, total, chunk) && p < total <= U64_MAX
    ensures p / chunk < count
    ensures Covers(index, count, total, chunk, p) <==> index == p / chunk
  {
    QuotientInPlan(p, count, total, chunk);
    QuotientBounds(p, chunk);
    ChunkByQuotient(p, p / chunk, index, count, total, chunk);
  }

  /** A set of indices below `n` that has `n` members holds them all. */
  lemma {:induction false} Pigeonhole(s: set<nat>, n: nat)
    requires forall i :: i in s ==> i < n
    ensures |s| <= n
    ensures |s| == n <==> forall i :: 0 <= i < n ==> i in s
  {
    if n == 0 {
      assert s == {};
    } else {
      var t := s - {n - 1};
      Pigeonhole(t, n - 1);
      if n - 1 in s {
        assert s == t + {n - 1};
        assert forall i :: 0 <= i < n - 1 ==> (i in s <==> i in t);
      } else {
        assert s == t;
      }
    }
  }

  // ---- Files written piece by piece ----

  /** Writing `data` at `offset`: a gap before it reads as zeros. */
  function WriteAt(file: seq<byte>, offset: nat, data: seq<byte>): (r: seq<byte>)
    ensures |r| == if |file| < offset + |data| then offset + |data| else |file|
  {
    var padded := if |file| < offset then file + seq(offset - |file|, _ => 0) else file;
    if |padded| <= offset + |data| then padded[..offset] + data
    else padded[..offset] + data + padded[offset + |data|..]
  }

  lemma WriteAtReads(file: seq<byte>, offset: nat, data: seq<byte>)
    ensures WriteAt(file, offset, data)[offset..offset + |data|] == data
  {
  }

  lemma WriteAtKeeps(file: seq<byte>, offset: nat, data: seq<byte>, from: nat, to: nat)
    requires from <= to <= |file| && (to <= offset || offset + |data| <= from)
    ensures WriteAt(file, offset, data)[from..to] == file[from..to]
  {
  }

  /** The data of the first `k` chunks, end to end. */
  function Joined(data: map<nat, seq<byte>>, k: nat): seq<byte>
    requires forall i :: 0 <= i < k ==> i in data
  {
    if k == 0 then [] else Joined(data, k - 1) + data[k - 1]
  }

  // ---- Identifiers and stage paths ----

  predicate IsIdChar(c: char)
  {
    'a' <= c <= 'z' || 'A' <= c <= 'Z' || '0' <= c <= '9' || c == '-' || c == '_'
  }

  predicate ValidUploadId(id: string)
  {
    0 < |id| <= 128 && forall k :: 0 <= k < |id| ==> IsIdChar(id[k])
  }

  /** A path by its components; the last one is the file name. */
  type Path = seq<string>

  const INFIX: string := ".komari-upload-"
  const SUFFIX: string := ".part"

  function FileName(p: Path): string
  {
    if p == [] then "file" else p[|p| - 1]
  }

  function WithFileName(p: Path, name: string): Path
  {
    if p == [] then [name] else p[..|p| - 1] + [name]
  }

  function PartName(name: string, id: string): string
  {
    "." + name + INFIX + id + SUFFIX
  }

  function UploadPartPath(p: Path, id: string): (r: Path)
    ensures r != []
  {
    WithFileName(p, PartName(FileName(p), id))
  }

  /** A stage file lies beside its target: same directory, a name without a separator, and not the target's. */
  lemma StageBeside(p: Path, id: string)
    requires p != [] && ValidUploadId(id) && '/' !in p[|p| - 1] && '\\' !in p[|p| - 1]
    ensures
      var stage := UploadPartPath(p, id);
      && |stage| == |p| && stage[..|p| - 1] == p[..|p| - 1] && stage != p
      && '/' !in stage[|p| - 1] && '\\' !in stage[|p| - 1]
      && stage[|p| - 1] == "." + p[|p| - 1] + ".komari-upload-" + id + ".part"
  {
    var stage := UploadPartPath(p, id);
    assert |stage[|p| - 1]| > |p[|p| - 1]|;
  }

  lemma DotFree(id: string, name: string, k: nat)
    requires ValidUploadId(id) && 1 + |name| < k < 1 + |name| + |INFIX| + |id|
    ensures PartName(name, id)[k] != '.'
  {
    var s := PartName(name, id);
    if k < 1 + |name| + |INFIX| {
      assert s[k] == INFIX[k - 1 - |name|];
    } else {
      assert s[k] == id[k - 1 - |name| - |INFIX|];
    }
  }

  /** No two uploads share a stage name: an identifier holds no dot, so it can be read back. */
  lemma PartNameInjective(name: string, id: string, name': string, id': string)
    requires ValidUploadId(id) && ValidUploadId(id') && PartName(name, id) == PartName(name', id')
    ensures name == name' && id == id'
  {
    var s := PartName(name, id);
    assert s[1 + |name|] == '.' == INFIX[0];
    assert PartName(name', id')[1 + |name'|] == '.';
    if |id| < |id'| {
      DotFree(id', name', 1 + |name|);
    } else if |id'| < |id| {
      DotFree(id, name, 1 + |name'|);
    }
    assert |name| == |name'|;
    assert name == s[1..1 + |name|] == name';
    var k := 1 + |name| + |INFIX|;
    assert id == s[k..k + |id|] == id';
  }

  lemma StagesDiffer(p: Path, id: string, p': Path, id': string)
    requires ValidUploadId(id) && ValidUploadId(id') && id != id'
    ensures UploadPartPath(p, id) != UploadPartPath(p', id')
  {
    var a, b := UploadPartPath(p, id), UploadPartPath(p', id');
    if a == b {
      assert a[|a| - 1] == PartName(FileName(p), id) && b[|b| - 1] == PartName(FileName(p'), id');
      PartNameInjective(FileName(p), id, FileName(p'), id');
    }
  }
}
