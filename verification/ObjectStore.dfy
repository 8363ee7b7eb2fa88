/** packages/storage: a bucket of objects, as the backup and sweep scripts use it. */
module ObjectStore {
  import opened Text

  type Bytes = seq<bv8>

  /** `modified` is the time of the write in milliseconds, or None when the store does not say. */
  datatype Object = Object(bytes: Bytes, modified: Option<int>)

  datatype Head = Head(size: nat, modified: Option<int>)

  type Objects = map<string, Object>

  function BytesAt(objects: Objects, key: string): Option<Bytes> {
    if key in objects then Some(objects[key].bytes) else None
  }

  class Store {
    var objects: Objects
    var clock: Option<int>

    constructor (clock: Option<int>)
      ensures objects == map[] && this.clock == clock
    {
      objects := map[];
      this.clock := clock;
    }

    method HeadObject(key: string) returns (head: Option<Head>)
      ensures head == if key in objects
                      then Some(Head(|objects[key].bytes|, objects[key].modified)) else None
    {
      head := if key in objects then Some(Head(|objects[key].bytes|, objects[key].modified)) else None;
    }

    method GetObject(key: string) returns (body: Option<Bytes>)
      ensures body == BytesAt(objects, key)
    {
      body := BytesAt(objects, key);
    }

    /** Refuses a body whose length is not the announced one; a refused put writes nothing. */
    method PutObject(key: string, body: Bytes, contentLength: nat) returns (stored: bool)
      modifies this
      ensures clock == old(clock)
      ensures stored == (|body| == contentLength)
      ensures objects == if stored then old(objects)[key := Object(body, clock)] else old(objects)
    {
      stored := |body| == contentLength;
      if stored {
        objects := objects[key := Object(body, clock)];
      }
    }

    method DeleteObject(key: string)
      modifies this
      ensures objects == old(objects) - {key} && clock == old(clock)
    {
      objects := objects - {key};
    }
  }
}
