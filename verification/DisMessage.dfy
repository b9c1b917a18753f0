/**
 Messages built from DIS numbers and strings: attribute lists, status replies, plain replies and
 request extensions, with the writer and the reader of each shown to be inverse to one another.
 The readers are written over the three field readers of a dialect, of which the proofs use only
 that they invert the field writers.
 */
module DisMessage {
  import opened Decimal
  import opened DisCodec

  const PROT_TYPE: nat := 2
  const PROT_VER: nat := 2

  const CHOICE_QUEUE := 2
  const CHOICE_RDYTOCOM := 3
  const CHOICE_COMMIT := 4
  const CHOICE_STATUS := 6
  const CHOICE_TEXT := 7

  /** Slices of 64-byte attributes and of 48-byte objects that the runtime can allocate. */
  const MAX_ATTRS: int := MAX_ALLOC / 64
  const MAX_OBJECTS: int := MAX_ALLOC / 48

  /** How one dialect writes and reads the three kinds of field. */
  datatype Codec = Codec(
    putUint: nat -> string, putInt: GoInt -> string, putText: Str -> string,
    uint: string -> Read<nat>, sint: string -> Read<GoInt>, text: string -> Read<Str>)

  function CodecOf(d: Dialect): Codec {
    Codec((v: nat) => EncodeUint(v), (v: GoInt) => EncodeInt(v), (s: Str) => EncodeString(s),
          s => DecodeUint(d, s), s => DecodeInt(d, s), s => DecodeString(d, s))
  }

  /** Reading a written field gives it back with the exact remaining input; large unsigned numbers fail. */
  ghost predicate Inverts(c: Codec) {
    && (forall v: nat, rest: string :: v < TWO64 ==>
          c.uint(c.putUint(v) + rest) == if v < TWO63 then Got(v, rest) else Fail(BadDigits))
    && (forall v: GoInt, rest: string :: c.sint(c.putInt(v) + rest) == Got(v, rest))
    && (forall s: Str, rest: string :: c.text(c.putText(s) + rest) == Got(s, rest))
  }

  lemma CodecInverts(d: Dialect)
    ensures Inverts(CodecOf(d))
  {
    var c := CodecOf(d);
    forall v: nat, rest: string | v < TWO64
      ensures c.uint(c.putUint(v) + rest) == if v < TWO63 then Got(v, rest) else Fail(BadDigits)
    {
      UintRoundTrip(d, v, rest);
    }
    forall v: GoInt, rest: string ensures c.sint(c.putInt(v) + rest) == Got(v, rest) {
      IntRoundTrip(d, v, rest);
    }
    forall s: Str, rest: string ensures c.text(c.putText(s) + rest) == Got(s, rest) {
      StringRoundTrip(d, s, rest);
    }
  }

  /** Reader `g` takes every field that `c` takes, with the same outcome. */
  ghost predicate Covers(g: Codec, c: Codec) {
    && (forall s :: c.uint(s).Got? ==> g.uint(s) == c.uint(s))
    && (forall s :: c.sint(s).Got? ==> g.sint(s) == c.sint(s))
    && (forall s :: c.text(s).Got? ==> g.text(s) == c.text(s))
  }

  /** The lax dialect covers the strict one. */
  lemma LaxCovers()
    ensures Covers(CodecOf(Lax), CodecOf(Strict))
  {
    forall s | DecodeNumber(Strict, 1, s).Got? { LaxNumberAgrees(1, s); }
  }

  type GoInt = v: int | -TWO63 <= v < TWO63

  datatype SvrAttrl = SvrAttrl(name: Str, hasResc: bool, resc: Str, value: Str, op: GoInt)

  type AttrList = attrs: seq<SvrAttrl> | |attrs| <= MAX_ATTRS

  datatype StatusObject = StatusObject(kind: GoInt, name: Str, attrs: AttrList)

  type ObjectList = objects: seq<StatusObject> | |objects| <= MAX_OBJECTS

  /** What a reader can see of an attribute: the resource name travels only when it is flagged. */
  function Visible(a: SvrAttrl): SvrAttrl { if a.hasResc then a else a.(resc := "") }

  function VisibleAll(attrs: seq<SvrAttrl>): seq<SvrAttrl> { Map(Visible, attrs) }

  predicate OpsNonNegative(attrs: seq<SvrAttrl>) { forall i :: 0 <= i < |attrs| ==> attrs[i].op >= 0 }

  // ---------------------------------------------------------------- lists

  function Map<A, B>(f: A -> B, xs: seq<A>): (r: seq<B>)
    ensures |r| == |xs| && forall i :: 0 <= i < |r| ==> r[i] == f(xs[i])
  {
    if xs == [] then [] else [f(xs[0])] + Map(f, xs[1..])
  }

  function EncodeMany<T>(put: T -> string, xs: seq<T>): string {
    if xs == [] then "" else put(xs[0]) + EncodeMany(put, xs[1..])
  }

  function DecodeMany<T>(get: string -> Read<T>, count: nat, s: string): (r: Read<seq<T>>)
    ensures r.Got? ==> |r.value| == count
  {
    if count == 0 then Got([], s)
    else
      var (x, s1) :- get(s);
      var (more, s2) :- DecodeMany(get, count - 1, s1);
      Got([x] + more, s2)
  }

  ghost predicate All<T>(ok: T -> bool, xs: seq<T>) { forall i :: 0 <= i < |xs| ==> ok(xs[i]) }

  /** If each element reads back as its view exactly when it is fit to send, so does a list of any length. */
  lemma {:induction false} ManyRoundTrip<T(!new)>(
      put: T -> string, get: string -> Read<T>, ok: T -> bool, view: T -> T, xs: seq<T>, rest: string)
    requires forall x, s :: get(put(x) + s) == if ok(x) then Got(view(x), s) else Fail(BadDigits)
    ensures DecodeMany(get, |xs|, EncodeMany(put, xs) + rest)
         == if All(ok, xs) then Got(Map(view, xs), rest) else Fail(BadDigits)
  {
    if xs == [] {
      assert EncodeMany(put, xs) + rest == rest;
    } else {
      var tail := EncodeMany(put, xs[1..]) + rest;
      assert EncodeMany(put, xs) + rest == put(xs[0]) + tail;
      ManyRoundTrip(put, get, ok, view, xs[1..], rest);
      assert All(ok, xs) <==> ok(xs[0]) && All(ok, xs[1..]) by {
        assert forall i :: 1 <= i < |xs| ==> xs[i] == xs[1..][i - 1];
      }
    }
  }

  lemma {:induction false} ManyCovered<T>(g: string -> Read<T>, f: string -> Read<T>, count: nat, s: string)
    requires forall s :: f(s).Got? ==> g(s) == f(s)
    requires DecodeMany(f, count, s).Got?
    ensures DecodeMany(g, count, s) == DecodeMany(f, count, s)
  {
    if count > 0 { ManyCovered(g, f, count - 1, f(s).rest); }
  }

  // ---------------------------------------------------------------- attributes

  function AttrSize(a: SvrAttrl): nat {
    |a.name| + |a.value| + 2 + if a.hasResc then |a.resc| + 1 else 0
  }

  function EncodeResc(c: Codec, a: SvrAttrl): string {
    if a.hasResc then c.putUint(1) + c.putText(a.resc) else c.putUint(0)
  }

  function EncodeAttr(c: Codec, a: SvrAttrl): string {
    c.putUint(AttrSize(a)) + c.putText(a.name) + EncodeResc(c, a) + c.putText(a.value) + c.putUint(ToUint64(a.op))
  }

  /** The writer and the reader of one attribute, as list elements. */
  function PutAttr(c: Codec): SvrAttrl -> string { a => EncodeAttr(c, a) }
  function GetAttr(c: Codec): string -> Read<SvrAttrl> { s => DecodeAttr(c, s) }

  function EncodeAttrs(c: Codec, attrs: AttrList): string { c.putUint(|attrs|) + EncodeMany(PutAttr(c), attrs) }

  function DecodeResc(c: Codec, s: string): (r: Read<(bool, Str)>)
  {
    var (hasResc, s1) :- c.uint(s);
    if hasResc == 0 then Got((false, ""), s1)
    else
      var (resc, s2) :- c.text(s1);
      Got((true, resc), s2)
  }

  function DecodeAttr(c: Codec, s: string): (r: Read<SvrAttrl>)
  {
    var (_, s1) :- c.uint(s);
    var (name, s2) :- c.text(s1);
    var (resc, s3) :- DecodeResc(c, s2);
    var (value, s4) :- c.text(s3);
    var (op, s5) :- c.uint(s4);
    Got(SvrAttrl(name, resc.0, resc.1, value, Wrap64(op)), s5)
  }

  function DecodeAttrs(c: Codec, s: string): (r: Read<AttrList>)
  {
    var (count, s1) :- c.uint(s);
    if count > MAX_ATTRS then Fail(HugeAllocation)
    else
      var (attrs, s2) :- DecodeMany(GetAttr(c), count, s1);
      Got(attrs, s2)
  }

  lemma RescRoundTrip(c: Codec, a: SvrAttrl, rest: string)
    requires Inverts(c)
    ensures DecodeResc(c, EncodeResc(c, a) + rest) == Got((a.hasResc, Visible(a).resc), rest)
  {
    if a.hasResc {
      assert EncodeResc(c, a) + rest == c.putUint(1) + (c.putText(a.resc) + rest);
    } else {
    }
  }

  /** One attribute reads back as its visible part exactly when its operator is not negative. */
  lemma AttrRoundTrip(c: Codec, a: SvrAttrl, rest: string)
    requires Inverts(c)
    ensures DecodeAttr(c, EncodeAttr(c, a) + rest) == if a.op >= 0 then Got(Visible(a), rest) else Fail(BadDigits)
  {
    var s4 := c.putUint(ToUint64(a.op)) + rest;
    var s3 := c.putText(a.value) + s4;
    var s2 := EncodeResc(c, a) + s3;
    var s1 := c.putText(a.name) + s2;
    assert EncodeAttr(c, a) + rest == c.putUint(AttrSize(a)) + s1;
    RescRoundTrip(c, a, s3);
  }

  /**
   An attribute list of any length reads back as its visible part, leaving exactly the bytes after
   it, if and only if no operator is negative.
   */
  lemma AttrsRoundTrip(c: Codec, attrs: AttrList, rest: string)
    requires Inverts(c)
    ensures DecodeAttrs(c, EncodeAttrs(c, attrs) + rest)
         == if OpsNonNegative(attrs) then Got(VisibleAll(attrs), rest) else Fail(BadDigits)
  {
    var put, get := PutAttr(c), GetAttr(c);
    assert EncodeAttrs(c, attrs) + rest == c.putUint(|attrs|) + (EncodeMany(put, attrs) + rest);
    forall a: SvrAttrl, s: string
      ensures get(put(a) + s) == if a.op >= 0 then Got(Visible(a), s) else Fail(BadDigits)
    {
      AttrRoundTrip(c, a, s);
    }
    ManyRoundTrip(put, get, (a: SvrAttrl) => a.op >= 0, Visible, attrs, rest);
  }

  /** The list itself comes back exactly when, besides, no unflagged attribute holds a resource name. */
  lemma AttrsExactRoundTrip(c: Codec, attrs: AttrList, rest: string)
    requires Inverts(c)
    ensures DecodeAttrs(c, EncodeAttrs(c, attrs) + rest) == Got(attrs, rest)
       <==> forall i :: 0 <= i < |attrs| ==> attrs[i].op >= 0 && (attrs[i].hasResc || attrs[i].resc == "")
  {
    AttrsRoundTrip(c, attrs, rest);
    if OpsNonNegative(attrs) {
      var seen := VisibleAll(attrs);
      if seen == attrs {
        forall i | 0 <= i < |attrs| ensures attrs[i].hasResc || attrs[i].resc == "" {
          assert seen[i] == Visible(attrs[i]);
        }
      }
      if forall i :: 0 <= i < |attrs| ==> attrs[i].hasResc || attrs[i].resc == "" {
        assert forall i :: 0 <= i < |attrs| ==> seen[i] == attrs[i];
      }
    }
  }

  // ---------------------------------------------------------------- status replies

  function EncodeObject(c: Codec, o: StatusObject): string {
    c.putUint(ToUint64(o.kind)) + c.putText(o.name) + EncodeAttrs(c, o.attrs)
  }

  function PutObject(c: Codec): StatusObject -> string { o => EncodeObject(c, o) }
  function GetObject(c: Codec): string -> Read<StatusObject> { s => DecodeObject(c, s) }

  function EncodeHeader(c: Codec, code: GoInt, aux: GoInt, choice: GoInt): string {
    c.putUint(PROT_TYPE) + c.putUint(PROT_VER) + c.putInt(code) + c.putInt(aux) + c.putUint(ToUint64(choice))
  }

  function EncodeObjects(c: Codec, objects: ObjectList): string {
    c.putUint(|objects|) + EncodeMany(PutObject(c), objects)
  }

  function EncodeStatusReply(c: Codec, objects: ObjectList): string {
    EncodeHeader(c, 0, 0, CHOICE_STATUS) + EncodeObjects(c, objects)
  }

  /** Protocol, version, code, auxiliary code and choice; the first two are read and ignored. */
  function DecodeHeader(c: Codec, s: string): (r: Read<(GoInt, GoInt, GoInt)>)
  {
    var (_, s1) :- c.uint(s);
    var (_, s2) :- c.uint(s1);
    var (code, s3) :- c.sint(s2);
    var (aux, s4) :- c.sint(s3);
    var (choice, s5) :- c.uint(s4);
    Got((code, aux, Wrap64(choice)), s5)
  }

  function DecodeObject(c: Codec, s: string): (r: Read<StatusObject>)
  {
    var (kind, s1) :- c.uint(s);
    var (name, s2) :- c.text(s1);
    var (attrs, s3) :- DecodeAttrs(c, s2);
    Got(StatusObject(Wrap64(kind), name, attrs), s3)
  }

  function DecodeObjects(c: Codec, s: string): Read<ObjectList> {
    var (count, s1) :- c.uint(s);
    if count > MAX_OBJECTS then Fail(HugeAllocation)
    else
      var (objects, s2) :- DecodeMany(GetObject(c), count, s1);
      Got(objects, s2)
  }

  function DecodeStatusReply(c: Codec, s: string): Read<ObjectList> {
    var (header, s1) :- DecodeHeader(c, s);
    if header.0 != 0 then Fail(ServerError)
    else if header.2 != CHOICE_STATUS then Fail(UnexpectedChoice)
    else DecodeObjects(c, s1)
  }

  lemma HeaderRoundTrip(c: Codec, code: GoInt, aux: GoInt, choice: GoInt, rest: string)
    requires Inverts(c)
    ensures DecodeHeader(c, EncodeHeader(c, code, aux, choice) + rest)
         == if choice >= 0 then Got((code, aux, choice), rest) else Fail(BadDigits)
  {
    var s4 := c.putUint(ToUint64(choice)) + rest;
    var s3 := c.putInt(aux) + s4;
    var s2 := c.putInt(code) + s3;
    var s1 := c.putUint(PROT_VER) + s2;
    assert EncodeHeader(c, code, aux, choice) + rest == c.putUint(PROT_TYPE) + s1;
  }

  predicate Sendable(o: StatusObject) { o.kind >= 0 && OpsNonNegative(o.attrs) }

  predicate AllSendable(objects: seq<StatusObject>) { forall i :: 0 <= i < |objects| ==> Sendable(objects[i]) }

  function VisibleObject(o: StatusObject): StatusObject { o.(attrs := VisibleAll(o.attrs)) }

  function VisibleObjects(objects: seq<StatusObject>): seq<StatusObject> { Map(VisibleObject, objects) }

  lemma ObjectRoundTrip(c: Codec, o: StatusObject, rest: string)
    requires Inverts(c)
    ensures DecodeObject(c, EncodeObject(c, o) + rest) ==
            if Sendable(o) then Got(VisibleObject(o), rest) else Fail(BadDigits)
  {
    var s2 := EncodeAttrs(c, o.attrs) + rest;
    var s1 := c.putText(o.name) + s2;
    assert EncodeObject(c, o) + rest == c.putUint(ToUint64(o.kind)) + s1;
    AttrsRoundTrip(c, o.attrs, rest);
  }

  lemma ObjectsRoundTrip(c: Codec, objects: ObjectList, rest: string)
    requires Inverts(c)
    ensures DecodeObjects(c, EncodeObjects(c, objects) + rest)
         == if AllSendable(objects) then Got(VisibleObjects(objects), rest) else Fail(BadDigits)
  {
    var put, get := PutObject(c), GetObject(c);
    assert EncodeObjects(c, objects) + rest == c.putUint(|objects|) + (EncodeMany(put, objects) + rest);
    forall o: StatusObject, s: string
      ensures get(put(o) + s) == if Sendable(o) then Got(VisibleObject(o), s) else Fail(BadDigits)
    {
      ObjectRoundTrip(c, o, s);
    }
    ManyRoundTrip(put, get, Sendable, VisibleObject, objects, rest);
  }

  /**
   Whatever the server writes as a status reply, the client reads back as the same objects in the
   same order, exactly as long as no type or operator is negative.
   */
  lemma StatusReplyRoundTrip(c: Codec, objects: ObjectList, rest: string)
    requires Inverts(c)
    ensures DecodeStatusReply(c, EncodeStatusReply(c, objects) + rest)
         == if AllSendable(objects) then Got(VisibleObjects(objects), rest) else Fail(BadDigits)
  {
    var s1 := EncodeObjects(c, objects) + rest;
    assert EncodeStatusReply(c, objects) + rest == EncodeHeader(c, 0, 0, CHOICE_STATUS) + s1;
    HeaderRoundTrip(c, 0, 0, CHOICE_STATUS, s1);
    ObjectsRoundTrip(c, objects, rest);
  }

  // ---------------------------------------------------------------- plain replies and extensions

  predicate CarriesText(choice: int) {
    choice == CHOICE_QUEUE || choice == CHOICE_RDYTOCOM || choice == CHOICE_COMMIT || choice == CHOICE_TEXT
  }

  datatype Reply = Reply(code: GoInt, aux: GoInt, choice: GoInt, data: Str)

  function EncodeReply(c: Codec, r: Reply): string {
    EncodeHeader(c, r.code, r.aux, r.choice) + if CarriesText(r.choice) then c.putText(r.data) else ""
  }

  function DecodeReply(c: Codec, s: string): Read<Reply> {
    var (header, s1) :- DecodeHeader(c, s);
    if CarriesText(header.2) then
      var (data, s2) :- c.text(s1);
      Got(Reply(header.0, header.1, header.2, data), s2)
    else Got(Reply(header.0, header.1, header.2, ""), s1)
  }

  /** Every reply with a non-negative choice reads back; its text survives when the choice carries one. */
  lemma ReplyRoundTrip(c: Codec, r: Reply, rest: string)
    requires Inverts(c)
    ensures DecodeReply(c, EncodeReply(c, r) + rest)
         == if r.choice < 0 then Fail(BadDigits)
            else Got(if CarriesText(r.choice) then r else r.(data := ""), rest)
  {
    if CarriesText(r.choice) {
      assert EncodeReply(c, r) + rest == EncodeHeader(c, r.code, r.aux, r.choice) + (c.putText(r.data) + rest);
      HeaderRoundTrip(c, r.code, r.aux, r.choice, c.putText(r.data) + rest);
    } else {
      assert EncodeReply(c, r) + rest == EncodeHeader(c, r.code, r.aux, r.choice) + rest;
      HeaderRoundTrip(c, r.code, r.aux, r.choice, rest);
    }
  }

  function EncodeExtend(c: Codec, ext: Str): string {
    if ext == "" then c.putUint(0) else c.putUint(1) + c.putText(ext)
  }

  function DecodeExtend(c: Codec, s: string): Read<Str> {
    var (hasExt, s1) :- c.uint(s);
    if hasExt == 0 then Got("", s1) else c.text(s1)
  }

  lemma ExtendRoundTrip(c: Codec, ext: Str, rest: string)
    requires Inverts(c)
    ensures DecodeExtend(c, EncodeExtend(c, ext) + rest) == Got(ext, rest)
  {
    if ext == "" {
    } else {
      assert EncodeExtend(c, ext) + rest == c.putUint(1) + (c.putText(ext) + rest);
    }
  }

  // ---------------------------------------------------------------- the two readers agree

  lemma AttrsCovered(g: Codec, c: Codec, s: string)
    requires Covers(g, c) && DecodeAttrs(c, s).Got?
    ensures DecodeAttrs(g, s) == DecodeAttrs(c, s)
  {
    var count := c.uint(s);
    ManyCovered(GetAttr(g), GetAttr(c), count.value, count.rest);
  }

  lemma ObjectCovered(g: Codec, c: Codec, s: string)
    requires Covers(g, c) && DecodeObject(c, s).Got?
    ensures DecodeObject(g, s) == DecodeObject(c, s)
  {
    AttrsCovered(g, c, c.text(c.uint(s).rest).rest);
  }

  lemma ObjectsCovered(g: Codec, c: Codec, s: string)
    requires Covers(g, c) && DecodeObjects(c, s).Got?
    ensures DecodeObjects(g, s) == DecodeObjects(c, s)
  {
    var count := c.uint(s);
    forall s | DecodeObject(c, s).Got? ensures DecodeObject(g, s) == DecodeObject(c, s) {
      ObjectCovered(g, c, s);
    }
    ManyCovered(GetObject(g), GetObject(c), count.value, count.rest);
  }

  lemma StatusReplyCovered(g: Codec, c: Codec, s: string)
    requires Covers(g, c) && DecodeStatusReply(c, s).Got?
    ensures DecodeStatusReply(g, s) == DecodeStatusReply(c, s)
  {
    ObjectsCovered(g, c, DecodeHeader(c, s).rest);
  }

  /**
   On every stream from which the server's reader takes an attribute list or a status reply, the
   scheduler's laxer reader takes the same one and leaves the same input.
   */
  lemma LaxReaderAgrees(s: string)
    ensures DecodeAttrs(CodecOf(Strict), s).Got? ==>
              DecodeAttrs(CodecOf(Lax), s) == DecodeAttrs(CodecOf(Strict), s)
    ensures DecodeStatusReply(CodecOf(Strict), s).Got? ==>
              DecodeStatusReply(CodecOf(Lax), s) == DecodeStatusReply(CodecOf(Strict), s)
  {
    LaxCovers();
    var c, g := CodecOf(Strict), CodecOf(Lax);
    if DecodeAttrs(c, s).Got? { AttrsCovered(g, c, s); }
    if DecodeStatusReply(c, s).Got? { StatusReplyCovered(g, c, s); }
  }

  /** The server's status reply, read by either client reader, for any list of objects. */
  lemma StatusReplyOnTheWire(d: Dialect, objects: ObjectList, rest: string)
    ensures DecodeStatusReply(CodecOf(d), EncodeStatusReply(CodecOf(d), objects) + rest)
         == if AllSendable(objects) then Got(VisibleObjects(objects), rest) else Fail(BadDigits)
  {
    CodecInverts(d);
    StatusReplyRoundTrip(CodecOf(d), objects, rest);
  }
}
