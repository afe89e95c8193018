/** The key-value store behind platform/nvm_store.h: a map from key to byte string. */
module Nvm {
  import opened Bytes
  import opened Types

  const KEY_SEC_STATE: nat := 1
  const KEY_DTC_MIRROR: nat := 3
  const KEY_DTC_RECORDS: nat := 7
  const MAX_RECORD_BYTES: nat := 512

  type Records = map<nat, seq<byte>>

  /** What a read into a buffer of len bytes delivers: a longer record is cut off. */
  function ReadRecord(records: Records, key: nat, len: nat): Option<seq<byte>> {
    if key !in records then None
    else if |records[key]| <= len then Some(records[key])
    else Some(records[key][..len])
  }

  /** What was written under a key is read back, cut off only by the buffer; other keys keep their records. */
  lemma ReadUndoesWrite(records: Records, key: nat, data: seq<byte>, other: nat, len: nat)
    ensures var written := records[key := data];
      && ReadRecord(written, key, len) == Some(data[..if |data| <= len then |data| else len])
      && (other != key ==> ReadRecord(written, other, len) == ReadRecord(records, other, len))
      && (ReadRecord(records, other, len) == None <==> other !in records)
  {
    assert data[..|data|] == data;
  }

  class Store {
    var ready: bool
    var records: Records

    constructor ()
      ensures ready && records == map[]
    {
      ready := true;
      records := map[];
    }

    /** nvm_store_read into a fresh buffer; works: the platform can read. */
    method Read(key: nat, len: nat, works: bool) returns (rc: Status, buf: array<byte>, bytesRead: nat)
      requires len > 0
      ensures fresh(buf) && buf.Length == len
      ensures rc == if !ready then ErrNotInitialized else if !works then ErrPlatform
                    else if key in records then Ok else ErrDidNotFound
      ensures rc == Ok ==> bytesRead <= len && Some(buf[..bytesRead]) == ReadRecord(records, key, len)
    {
      buf := new byte[len](_ => 0);
      bytesRead := 0;
      if !ready {
        return ErrNotInitialized, buf, bytesRead;
      }
      if !works {
        return ErrPlatform, buf, bytesRead;
      }
      if key !in records {
        return ErrDidNotFound, buf, bytesRead;
      }
      var r := records[key];
      bytesRead := if |r| <= len then |r| else len;
      for i := 0 to bytesRead
        invariant buf[..i] == r[..i]
      {
        buf[i] := r[i];
      }
      assert r[..|r|] == r;
      rc := Ok;
    }

    /** nvm_store_write of the first len bytes of data; works: the platform can write. */
    method Write(key: nat, data: array<byte>, len: nat, works: bool) returns (rc: Status)
      requires len <= data.Length
      modifies this`records
      ensures rc == if !ready then ErrNotInitialized else if len == 0 || len > MAX_RECORD_BYTES then ErrInvalidParam
                    else if works then Ok else ErrPlatform
      ensures records == if rc == Ok then old(records)[key := data[..len]] else old(records)
    {
      if !ready {
        return ErrNotInitialized;
      }
      if len == 0 || len > MAX_RECORD_BYTES {
        return ErrInvalidParam;
      }
      if !works {
        return ErrPlatform;
      }
      records := records[key := data[..len]];
      rc := Ok;
    }
  }
}
