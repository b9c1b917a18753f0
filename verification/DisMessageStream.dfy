/**
 The message functions as they run: field by field over the reader and the writer of DisStream, with
 loops that collect or emit list elements, each proved against its specification in DisMessage. A
 reader follows its own dialect; the writer puts the same bytes for both.
 */
module DisMessageStream {
  import opened Decimal
  import opened DisCodec
  import opened DisStream
  import opened DisMessage

  // ---------------------------------------------------------------- fields

  /** The field readers of `c` are those of the dialect. */
  ghost predicate Reads(d: Dialect, c: Codec) {
    && (forall s {:trigger DecodeUint(d, s)} :: c.uint(s) == DecodeUint(d, s))
    && (forall s {:trigger DecodeInt(d, s)} :: c.sint(s) == DecodeInt(d, s))
    && (forall s {:trigger DecodeString(d, s)} :: c.text(s) == DecodeString(d, s))
  }

  /** The field writers of `c` are those of the format. */
  ghost predicate Writes(c: Codec) {
    && (forall v: nat {:trigger EncodeUint(v)} :: c.putUint(v) == EncodeUint(v))
    && (forall v: GoInt {:trigger EncodeInt(v)} :: c.putInt(v) == EncodeInt(v))
    && (forall s: Str {:trigger EncodeString(s)} :: c.putText(s) == EncodeString(s))
  }

  method TakeUint(r: Reader, ghost c: Codec) returns (out: Outcome<nat>)
    requires Reads(r.dialect, c)
    modifies r
    ensures out == Result(c.uint(old(r.input)))
    ensures out.Ok? ==> r.input == c.uint(old(r.input)).rest
  {
    out := r.ReadUint();
  }

  method TakeInt(r: Reader, ghost c: Codec) returns (out: Outcome<GoInt>)
    requires Reads(r.dialect, c)
    modifies r
    ensures out == Result(c.sint(old(r.input)))
    ensures out.Ok? ==> r.input == c.sint(old(r.input)).rest
  {
    out := r.ReadInt();
  }

  method TakeText(r: Reader, ghost c: Codec) returns (out: Outcome<Str>)
    requires Reads(r.dialect, c)
    modifies r
    ensures out == Result(c.text(old(r.input)))
    ensures out.Ok? ==> r.input == c.text(old(r.input)).rest
  {
    out := r.ReadString();
  }

  method PutUint(w: Writer, ghost c: Codec, v: nat)
    requires Writes(c)
    modifies w
    ensures w.output == old(w.output) + c.putUint(v)
  {
    w.WriteUint(v);
  }

  method PutInt(w: Writer, ghost c: Codec, v: GoInt)
    requires Writes(c)
    modifies w
    ensures w.output == old(w.output) + c.putInt(v)
  {
    w.WriteInt(v);
  }

  method PutText(w: Writer, ghost c: Codec, v: Str)
    requires Writes(c)
    modifies w
    ensures w.output == old(w.output) + c.putText(v)
  {
    w.WriteString(v);
  }

  // ---------------------------------------------------------------- readers

  /** A list read in two stages: `xs` already taken, the rest still to come. */
  function Prepend<T>(xs: seq<T>, r: Read<seq<T>>): Read<seq<T>> {
    match r case Got(ys, rest) => Got(xs + ys, rest) case Fail(e) => Fail(e)
  }

  /** Of the list `whole`, `xs` is taken and `left` elements are still in `s`. */
  ghost predicate Reading<T>(get: string -> Read<T>, whole: Read<seq<T>>, xs: seq<T>, left: nat, s: string) {
    whole == Prepend(xs, DecodeMany(get, left, s))
  }

  lemma ReadingStarts<T>(get: string -> Read<T>, count: nat, s: string)
    ensures Reading(get, DecodeMany(get, count, s), [], count, s)
  {
    var r := DecodeMany(get, count, s);
    if r.Got? { assert [] + r.value == r.value; }
  }

  lemma ReadingNext<T>(get: string -> Read<T>, whole: Read<seq<T>>, xs: seq<T>, left: nat, s: string)
    requires left > 0 && Reading(get, whole, xs, left, s)
    ensures get(s).Got? ==> Reading(get, whole, xs + [get(s).value], left - 1, get(s).rest)
    ensures get(s).Fail? ==> whole == Fail(get(s).error)
  {
    if get(s).Got? {
      var rest := DecodeMany(get, left - 1, get(s).rest);
      if rest.Got? { assert xs + ([get(s).value] + rest.value) == xs + [get(s).value] + rest.value; }
    }
  }

  lemma ReadingEnds<T>(get: string -> Read<T>, whole: Read<seq<T>>, xs: seq<T>, s: string)
    requires Reading(get, whole, xs, 0, s)
    ensures whole == Got(xs, s)
  {
    assert xs + [] == xs;
  }

  /** The body of the loop of `ReadSvrAttrl`. */
  method ReadAttr(r: Reader, ghost c: Codec) returns (out: Outcome<SvrAttrl>)
    requires Reads(r.dialect, c)
    modifies r
    ensures out == Result(DecodeAttr(c, old(r.input)))
    ensures out.Ok? ==> r.input == DecodeAttr(c, old(r.input)).rest
  {
    var size := TakeUint(r, c);
    if size.Err? { return Err(size.error); }
    var name := TakeText(r, c);
    if name.Err? { return Err(name.error); }
    var hasResc := TakeUint(r, c);
    if hasResc.Err? { return Err(hasResc.error); }
    var resc: Str := "";
    if hasResc.value != 0 {
      var text := TakeText(r, c);
      if text.Err? { return Err(text.error); }
      resc := text.value;
    }
    var value := TakeText(r, c);
    if value.Err? { return Err(value.error); }
    var op := TakeUint(r, c);
    if op.Err? { return Err(op.error); }
    return Ok(SvrAttrl(name.value, hasResc.value != 0, resc, value.value, Wrap64(op.value)));
  }

  /** `get` is the reader of one attribute. */
  ghost predicate GetsAttrs(c: Codec, get: string -> Read<SvrAttrl>) {
    forall s {:trigger DecodeAttr(c, s)} :: get(s) == DecodeAttr(c, s)
  }

  method TakeAttr(r: Reader, ghost c: Codec, ghost get: string -> Read<SvrAttrl>) returns (out: Outcome<SvrAttrl>)
    requires Reads(r.dialect, c) && GetsAttrs(c, get)
    modifies r
    ensures out == Result(get(old(r.input)))
    ensures out.Ok? ==> r.input == get(old(r.input)).rest
  {
    out := ReadAttr(r, c);
  }

  method TakeAttrs(r: Reader, ghost c: Codec, ghost get: string -> Read<SvrAttrl>, count: nat)
    returns (out: Outcome<seq<SvrAttrl>>)
    requires Reads(r.dialect, c) && GetsAttrs(c, get)
    modifies r
    ensures out == Result(DecodeMany(get, count, old(r.input)))
    ensures out.Ok? ==> |out.value| == count && r.input == DecodeMany(get, count, old(r.input)).rest
  {
    ghost var whole := DecodeMany(get, count, r.input);
    ReadingStarts(get, count, r.input);
    var attrs: seq<SvrAttrl> := [];
    var i := 0;
    while i < count
      invariant 0 <= i <= count && |attrs| == i
      invariant Reading(get, whole, attrs, count - i, r.input)
    {
      ReadingNext(get, whole, attrs, count - i, r.input);
      var x := TakeAttr(r, c, get);
      if x.Err? { return Err(x.error); }
      attrs := attrs + [x.value];
      i := i + 1;
    }
    ReadingEnds(get, whole, attrs, r.input);
    return Ok(attrs);
  }

  method ReadSvrAttrl(r: Reader, ghost c: Codec) returns (out: Outcome<AttrList>)
    requires Reads(r.dialect, c)
    modifies r
    ensures out == Result(DecodeAttrs(c, old(r.input)))
    ensures out.Ok? ==> r.input == DecodeAttrs(c, old(r.input)).rest
  {
    var count := TakeUint(r, c);
    if count.Err? { return Err(count.error); }
    if count.value > MAX_ATTRS { return Err(HugeAllocation); }
    var attrs := TakeAttrs(r, c, GetAttr(c), count.value);
    if attrs.Err? { return Err(attrs.error); }
    return Ok(attrs.value);
  }

  /** Protocol, version, code, auxiliary code and choice. */
  method ReadHeader(r: Reader, ghost c: Codec) returns (out: Outcome<(GoInt, GoInt, GoInt)>)
    requires Reads(r.dialect, c)
    modifies r
    ensures out == Result(DecodeHeader(c, old(r.input)))
    ensures out.Ok? ==> r.input == DecodeHeader(c, old(r.input)).rest
  {
    var proto := TakeUint(r, c);
    if proto.Err? { return Err(proto.error); }
    var ver := TakeUint(r, c);
    if ver.Err? { return Err(ver.error); }
    var code := TakeInt(r, c);
    if code.Err? { return Err(code.error); }
    var aux := TakeInt(r, c);
    if aux.Err? { return Err(aux.error); }
    var choice := TakeUint(r, c);
    if choice.Err? { return Err(choice.error); }
    return Ok((code.value, aux.value, Wrap64(choice.value)));
  }

  method ReadReply(r: Reader, ghost c: Codec) returns (out: Outcome<Reply>)
    requires Reads(r.dialect, c)
    modifies r
    ensures out == Result(DecodeReply(c, old(r.input)))
    ensures out.Ok? ==> r.input == DecodeReply(c, old(r.input)).rest
  {
    var header := ReadHeader(r, c);
    if header.Err? { return Err(header.error); }
    var (code, aux, choice) := header.value;
    if !CarriesText(choice) { return Ok(Reply(code, aux, choice, "")); }
    var data := TakeText(r, c);
    return if data.Err? then Err(data.error) else Ok(Reply(code, aux, choice, data.value));
  }

  method ReadObject(r: Reader, ghost c: Codec) returns (out: Outcome<StatusObject>)
    requires Reads(r.dialect, c)
    modifies r
    ensures out == Result(DecodeObject(c, old(r.input)))
    ensures out.Ok? ==> r.input == DecodeObject(c, old(r.input)).rest
  {
    var kind := TakeUint(r, c);
    if kind.Err? { return Err(kind.error); }
    var name := TakeText(r, c);
    if name.Err? { return Err(name.error); }
    var attrs := ReadSvrAttrl(r, c);
    if attrs.Err? { return Err(attrs.error); }
    return Ok(StatusObject(Wrap64(kind.value), name.value, attrs.value));
  }

  /** `get` is the reader of one object. */
  ghost predicate GetsObjects(c: Codec, get: string -> Read<StatusObject>) {
    forall s {:trigger DecodeObject(c, s)} :: get(s) == DecodeObject(c, s)
  }

  method TakeObject(r: Reader, ghost c: Codec, ghost get: string -> Read<StatusObject>)
    returns (out: Outcome<StatusObject>)
    requires Reads(r.dialect, c) && GetsObjects(c, get)
    modifies r
    ensures out == Result(get(old(r.input)))
    ensures out.Ok? ==> r.input == get(old(r.input)).rest
  {
    out := ReadObject(r, c);
  }

  method TakeObjects(r: Reader, ghost c: Codec, ghost get: string -> Read<StatusObject>, count: nat)
    returns (out: Outcome<seq<StatusObject>>)
    requires Reads(r.dialect, c) && GetsObjects(c, get)
    modifies r
    ensures out == Result(DecodeMany(get, count, old(r.input)))
    ensures out.Ok? ==> |out.value| == count && r.input == DecodeMany(get, count, old(r.input)).rest
  {
    ghost var whole := DecodeMany(get, count, r.input);
    ReadingStarts(get, count, r.input);
    var objects: seq<StatusObject> := [];
    var i := 0;
    while i < count
      invariant 0 <= i <= count && |objects| == i
      invariant Reading(get, whole, objects, count - i, r.input)
    {
      ReadingNext(get, whole, objects, count - i, r.input);
      var x := TakeObject(r, c, get);
      if x.Err? { return Err(x.error); }
      objects := objects + [x.value];
      i := i + 1;
    }
    ReadingEnds(get, whole, objects, r.input);
    return Ok(objects);
  }

  method ReadObjects(r: Reader, ghost c: Codec) returns (out: Outcome<ObjectList>)
    requires Reads(r.dialect, c)
    modifies r
    ensures out == Result(DecodeObjects(c, old(r.input)))
    ensures out.Ok? ==> r.input == DecodeObjects(c, old(r.input)).rest
  {
    var count := TakeUint(r, c);
    if count.Err? { return Err(count.error); }
    if count.value > MAX_OBJECTS { return Err(HugeAllocation); }
    var objects := TakeObjects(r, c, GetObject(c), count.value);
    if objects.Err? { return Err(objects.error); }
    return Ok(objects.value);
  }

  method ReadStatusReply(r: Reader, ghost c: Codec) returns (out: Outcome<ObjectList>)
    requires Reads(r.dialect, c)
    modifies r
    ensures out == Result(DecodeStatusReply(c, old(r.input)))
    ensures out.Ok? ==> r.input == DecodeStatusReply(c, old(r.input)).rest
  {
    var header := ReadHeader(r, c);
    if header.Err? { return Err(header.error); }
    if header.value.0 != 0 { return Err(ServerError); }
    if header.value.2 != CHOICE_STATUS { return Err(UnexpectedChoice); }
    out := ReadObjects(r, c);
  }

  method ReadReqExtend(r: Reader, ghost c: Codec) returns (out: Outcome<Str>)
    requires Reads(r.dialect, c)
    modifies r
    ensures out == Result(DecodeExtend(c, old(r.input)))
    ensures out.Ok? ==> r.input == DecodeExtend(c, old(r.input)).rest
  {
    var hasExt := TakeUint(r, c);
    if hasExt.Err? { return Err(hasExt.error); }
    if hasExt.value == 0 { return Ok(""); }
    out := TakeText(r, c);
  }

  // ---------------------------------------------------------------- writers

  lemma {:induction false} EncodeManySnoc<T>(put: T -> string, xs: seq<T>, x: T)
    ensures EncodeMany(put, xs + [x]) == EncodeMany(put, xs) + put(x)
  {
    if xs == [] {
      assert [x][1..] == [];
    } else {
      assert (xs + [x])[1..] == xs[1..] + [x];
      EncodeManySnoc(put, xs[1..], x);
    }
  }

  /** `output` is `start` and then the first `i` elements of the list. */
  ghost predicate Emitted<T>(put: T -> string, xs: seq<T>, i: nat, start: string, output: string)
    requires i <= |xs|
  {
    output == start + EncodeMany(put, xs[..i])
  }

  lemma EmittedNext<T>(put: T -> string, xs: seq<T>, i: nat, start: string, output: string)
    requires i < |xs| && Emitted(put, xs, i, start, output)
    ensures Emitted(put, xs, i + 1, start, output + put(xs[i]))
  {
    assert xs[..i + 1] == xs[..i] + [xs[i]];
    EncodeManySnoc(put, xs[..i], xs[i]);
  }

  lemma EmittedAll<T>(put: T -> string, xs: seq<T>, start: string, output: string)
    requires Emitted(put, xs, |xs|, start, output)
    ensures output == start + EncodeMany(put, xs)
  {
    assert xs[..|xs|] == xs;
  }

  method WriteResc(w: Writer, ghost c: Codec, a: SvrAttrl)
    requires Writes(c)
    modifies w
    ensures w.output == old(w.output) + EncodeResc(c, a)
  {
    if a.hasResc {
      PutUint(w, c, 1);
      PutText(w, c, a.resc);
    } else {
      PutUint(w, c, 0);
    }
  }

  method WriteAttr(w: Writer, ghost c: Codec, a: SvrAttrl)
    requires Writes(c)
    modifies w
    ensures w.output == old(w.output) + EncodeAttr(c, a)
  {
    var size := |a.name| + |a.value| + 2;
    if a.hasResc { size := size + |a.resc| + 1; }
    PutUint(w, c, size);
    PutText(w, c, a.name);
    WriteResc(w, c, a);
    PutText(w, c, a.value);
    PutUint(w, c, ToUint64(a.op));
  }

  method WriteAttrs(w: Writer, ghost c: Codec, attrs: AttrList)
    requires Writes(c)
    modifies w
    ensures w.output == old(w.output) + EncodeMany(PutAttr(c), attrs)
  {
    ghost var put := PutAttr(c);
    for i := 0 to |attrs|
      invariant Emitted(put, attrs, i, old(w.output), w.output)
    {
      EmittedNext(put, attrs, i, old(w.output), w.output);
      WriteAttr(w, c, attrs[i]);
    }
    EmittedAll(put, attrs, old(w.output), w.output);
  }

  method WriteSvrAttrl(w: Writer, ghost c: Codec, attrs: AttrList)
    requires Writes(c)
    modifies w
    ensures w.output == old(w.output) + EncodeAttrs(c, attrs)
  {
    PutUint(w, c, |attrs|);
    WriteAttrs(w, c, attrs);
  }

  method WriteHeader(w: Writer, ghost c: Codec, code: GoInt, aux: GoInt, choice: GoInt)
    requires Writes(c)
    modifies w
    ensures w.output == old(w.output) + EncodeHeader(c, code, aux, choice)
  {
    PutUint(w, c, PROT_TYPE);
    PutUint(w, c, PROT_VER);
    PutInt(w, c, code);
    PutInt(w, c, aux);
    PutUint(w, c, ToUint64(choice));
  }

  method WriteReply(w: Writer, ghost c: Codec, reply: Reply)
    requires Writes(c)
    modifies w
    ensures w.output == old(w.output) + EncodeReply(c, reply)
  {
    WriteHeader(w, c, reply.code, reply.aux, reply.choice);
    if CarriesText(reply.choice) { PutText(w, c, reply.data); }
  }

  method WriteObject(w: Writer, ghost c: Codec, o: StatusObject)
    requires Writes(c)
    modifies w
    ensures w.output == old(w.output) + PutObject(c)(o)
  {
    assert PutObject(c)(o) == EncodeObject(c, o);
    PutUint(w, c, ToUint64(o.kind));
    PutText(w, c, o.name);
    WriteSvrAttrl(w, c, o.attrs);
  }

  method WriteObjectBodies(w: Writer, ghost c: Codec, objects: ObjectList)
    requires Writes(c)
    modifies w
    ensures w.output == old(w.output) + EncodeMany(PutObject(c), objects)
  {
    ghost var put := PutObject(c);
    for i := 0 to |objects|
      invariant Emitted(put, objects, i, old(w.output), w.output)
    {
      EmittedNext(put, objects, i, old(w.output), w.output);
      WriteObject(w, c, objects[i]);
    }
    EmittedAll(put, objects, old(w.output), w.output);
  }

  method WriteObjects(w: Writer, ghost c: Codec, objects: ObjectList)
    requires Writes(c)
    modifies w
    ensures w.output == old(w.output) + EncodeObjects(c, objects)
  {
    PutUint(w, c, |objects|);
    WriteObjectBodies(w, c, objects);
  }

  method WriteStatusReply(w: Writer, ghost c: Codec, objects: ObjectList)
    requires Writes(c)
    modifies w
    ensures w.output == old(w.output) + EncodeStatusReply(c, objects)
  {
    WriteHeader(w, c, 0, 0, CHOICE_STATUS);
    WriteObjects(w, c, objects);
  }

  method WriteReqExtend(w: Writer, ghost c: Codec, ext: Str)
    requires Writes(c)
    modifies w
    ensures w.output == old(w.output) + EncodeExtend(c, ext)
  {
    if ext == "" {
      PutUint(w, c, 0);
      return;
    }
    PutUint(w, c, 1);
    PutText(w, c, ext);
  }

  // ---------------------------------------------------------------- both ends

  /** A status reply in the codec of a dialect, and what its reader makes of it. */
  lemma StatusReplyIn(d: Dialect, objects: ObjectList, rest: string) returns (c: Codec, bytes: string)
    ensures Reads(d, c) && Writes(c) && bytes == EncodeStatusReply(c, objects)
    ensures DecodeStatusReply(c, bytes + rest) ==
            if AllSendable(objects) then Got(VisibleObjects(objects), rest) else Fail(BadDigits)
  {
    c := CodecOf(d);
    bytes := EncodeStatusReply(c, objects);
    StatusReplyOnTheWire(d, objects, rest);
  }

  /**
   A status reply written to a stream and read from it by either reader, with anything after it: the client
   has the visible objects and the stream is left at what follows, if and only if all objects are sendable.
   */
  method StatusReplyThrough(d: Dialect, objects: ObjectList, rest: string)
    returns (out: Outcome<ObjectList>, left: string)
    ensures out == if AllSendable(objects) then Ok(VisibleObjects(objects)) else Err(BadDigits)
    ensures AllSendable(objects) ==> left == rest
  {
    ghost var c, bytes := StatusReplyIn(d, objects, rest);
    var w := new Writer();
    WriteStatusReply(w, c, objects);
    assert w.output == "" + bytes == bytes;
    var r := new Reader(d, w.output + rest);
    out := ReadStatusReply(r, c);
    left := r.input;
  }

  lemma ReplyIn(d: Dialect, reply: Reply, rest: string) returns (c: Codec, bytes: string)
    ensures Reads(d, c) && Writes(c) && bytes == EncodeReply(c, reply)
    ensures DecodeReply(c, bytes + rest) ==
            if reply.choice < 0 then Fail(BadDigits)
            else Got(if CarriesText(reply.choice) then reply else reply.(data := ""), rest)
  {
    c := CodecOf(d);
    bytes := EncodeReply(c, reply);
    CodecInverts(d);
    ReplyRoundTrip(c, reply, rest);
  }

  /** The same for a plain reply, which comes back if and only if its choice is not negative. */
  method ReplyThrough(d: Dialect, reply: Reply, rest: string) returns (out: Outcome<Reply>, left: string)
    ensures out == if reply.choice < 0 then Err(BadDigits)
                   else Ok(if CarriesText(reply.choice) then reply else reply.(data := ""))
    ensures reply.choice >= 0 ==> left == rest
  {
    ghost var c, bytes := ReplyIn(d, reply, rest);
    var w := new Writer();
    WriteReply(w, c, reply);
    assert w.output == "" + bytes == bytes;
    var r := new Reader(d, w.output + rest);
    out := ReadReply(r, c);
    left := r.input;
  }
}
