/** Loose objects: the frame around a payload, and the store of compressed files. */
module GitObject {
  import opened GitClosure
  import opened GitReads
  import opened GitTree
  import opened Wrappers
  import Text

  /** The payload behind its kind and its length. */
  function Frame(kind: Kind, payload: string): string {
    KindName(kind) + " " + Text.Decimal(|payload|) + "\0" + payload
  }

  /** The first place of `c`, or the length. */
  function IndexOf(s: string, c: char): (n: nat)
    ensures n <= |s| && c !in s[..n] && (n < |s| ==> s[n] == c)
  {
    if s == "" || s[0] == c then 0
    else
      var n := IndexOf(s[1..], c);
      assert s[..n + 1] == [s[0]] + s[1..][..n];
      n + 1
  }

  lemma {:induction false} IndexIs(a: string, c: char, b: string)
    requires c !in a
    ensures IndexOf(a + [c] + b, c) == |a|
  {
    if a != "" {
      IndexIs(a[1..], c, b);
      assert (a + [c] + b)[1..] == a[1..] + [c] + b;
    }
  }

  function KindOf(name: string): (r: Option<Kind>)
    ensures r.Some? ==> KindName(r.value) == name
    ensures forall k :: KindName(k) == name ==> r == Some(k)
  {
    if name == "blob" then Some(Blob) else if name == "tree" then Some(Tree) else if name == "commit" then Some(Commit)
    else None
  }

  /** Kind and payload of an expanded object, as `read_object` takes it apart. */
  function Unframe(expanded: string): Option<(Kind, string)> {
    var nul := IndexOf(expanded, '\0');
    if nul == |expanded| then None
    else
      var header, payload := expanded[..nul], expanded[nul + 1..];
      var blank := IndexOf(header, ' ');
      if blank == |header| then None
      else
        var kind, size := KindOf(header[..blank]), header[blank + 1..];
        if kind.Some? && Text.IsDecimal(size) && Text.Number(size) == |payload| then Some((kind.value, payload))
        else None
  }

  lemma HeaderIsPlain(kind: Kind, n: nat)
    ensures ' ' !in KindName(kind) && '\0' !in KindName(kind) + " " + Text.Decimal(n)
  {
    Text.DecimalReads(n);
  }

  /** An expanded object is taken apart exactly when it is the frame of the result. */
  lemma UnframeExact(expanded: string, kind: Kind, payload: string)
    ensures Unframe(expanded) == Some((kind, payload)) <==> expanded == Frame(kind, payload)
  {
    if expanded == Frame(kind, payload) {
      FrameReads(kind, payload);
    } else if Unframe(expanded) == Some((kind, payload)) {
      FrameIs(expanded);
    }
  }

  lemma FrameReads(kind: Kind, payload: string)
    ensures Unframe(Frame(kind, payload)) == Some((kind, payload))
  {
    hide IndexOf, Text.Decimal, Text.Number;
    var size := Text.Decimal(|payload|);
    var header := KindName(kind) + " " + size;
    Text.DecimalReads(|payload|);
    HeaderIsPlain(kind, |payload|);
    assert Frame(kind, payload) == header + ['\0'] + payload;
    IndexIs(header, '\0', payload);
    assert Frame(kind, payload)[..|header|] == header && Frame(kind, payload)[|header| + 1..] == payload;
    assert header == KindName(kind) + [' '] + size;
    IndexIs(KindName(kind), ' ', size);
    assert header[..|KindName(kind)|] == KindName(kind) && header[|KindName(kind)| + 1..] == size;
  }

  lemma FrameIs(expanded: string)
    requires Unframe(expanded).Some?
    ensures expanded == Frame(Unframe(expanded).value.0, Unframe(expanded).value.1)
  {
    hide Text.Decimal, Text.Number, Text.IsDecimal;
    var nul := IndexOf(expanded, '\0');
    var header, payload := expanded[..nul], expanded[nul + 1..];
    var blank := IndexOf(header, ' ');
    Text.NumberPrints(header[blank + 1..]);
    assert header == header[..blank] + " " + header[blank + 1..];
    assert expanded == header + "\0" + payload;
  }

  lemma FrameSize(o: StoredObject)
    ensures |Frame(o.kind, o.payload)| == Expanded(o)
  {
  }

  // ---------- the store ----------

  /** The files by object id, what a complete compressed stream expands to, and the id of
      an expanded object. */
  datatype Store = Store(files: map<ObjectId, string>, inflate: string -> Option<string>, identity: string -> ObjectId)

  /** The object in a file, if the file holds one under its own id. */
  function Object(store: Store, id: ObjectId): Option<StoredObject>
    requires id in store.files
  {
    var expanded := store.inflate(store.files[id]);
    if expanded.None? || store.identity(expanded.value) != id then None
    else
      var framed := Unframe(expanded.value);
      if framed.None? then None
      else Some(StoredObject(framed.value.0, framed.value.1, |store.files[id]|))
  }

  /** The objects of a store. */
  function DiskOf(store: Store): Disk {
    map id | id in store.files && Object(store, id).Some? :: Object(store, id).value
  }

  /** An object is on the disk exactly when its file expands to its frame and has its id. */
  lemma OnDisk(store: Store, id: ObjectId, o: StoredObject)
    ensures id in DiskOf(store) && DiskOf(store)[id] == o <==>
      && id in store.files && store.inflate(store.files[id]) == Some(Frame(o.kind, o.payload))
      && store.identity(Frame(o.kind, o.payload)) == id && o.compressed == |store.files[id]|
  {
    hide Frame, Unframe;
    if id in store.files && store.inflate(store.files[id]).Some? {
      UnframeExact(store.inflate(store.files[id]).value, o.kind, o.payload);
    }
  }

  /** What a file has to do with the disk. */
  lemma FileHolds(store: Store, id: ObjectId)
    requires id in store.files
    ensures
      var expanded := store.inflate(store.files[id]);
      && (id in DiskOf(store) <==>
           expanded.Some? && Unframe(expanded.value).Some? && store.identity(expanded.value) == id)
      && (id in DiskOf(store) ==>
           && DiskOf(store)[id] ==
              StoredObject(Unframe(expanded.value).value.0, Unframe(expanded.value).value.1, |store.files[id]|)
           && Expanded(DiskOf(store)[id]) == |expanded.value|)
  {
    hide Frame, Unframe, Expanded;
    if id in DiskOf(store) {
      var expanded := store.inflate(store.files[id]).value;
      FrameIs(expanded);
      FrameSize(DiskOf(store)[id]);
    }
  }

  lemma FileOf(store: Store, id: ObjectId)
    ensures id in DiskOf(store) ==> id in store.files
  {
  }
}
