/**
 The parameter builder of the extended protocol. Parameter values are slices of one buffer that grows by
 `append`: in place while there is room, so that all slices share an array, and into a new array when there
 is none, so that earlier slices keep the old one.
 */
module Builder {
  import opened Basics
  import opened Wire

  /** A slice: `arr[lo..hi]`. Its capacity reaches to the end of the array. */
  datatype Slice = Slice(arr: array<Byte>, lo: nat, hi: nat)

  ghost predicate InBounds(s: Slice) {
    s.lo <= s.hi <= s.arr.Length
  }

  ghost function Read(s: Slice): seq<Byte>
    requires InBounds(s)
    reads s.arr
  {
    s.arr[s.lo..s.hi]
  }

  /** The `append` of the language. How much a new array is over-allocated is not specified. */
  method Append(s: Slice, data: seq<Byte>) returns (t: Slice)
    requires InBounds(s) && s.lo == 0
    modifies s.arr
    ensures InBounds(t) && t.lo == 0 && Read(t) == old(Read(s)) + data
    ensures t.arr == s.arr || fresh(t.arr)
    ensures t.arr == s.arr ==> s.hi <= t.hi
    ensures s.arr[..s.hi] == old(s.arr[..s.hi])
  {
    var n := s.hi + |data|;
    if n <= s.arr.Length {
      forall i | 0 <= i < |data| {
        s.arr[s.hi + i] := data[i];
      }
      t := Slice(s.arr, 0, n);
    } else {
      var spare :| spare >= 0;
      var grown := new Byte[n + spare];
      forall i | 0 <= i < s.hi {
        grown[i] := s.arr[i];
      }
      forall i | 0 <= i < |data| {
        grown[s.hi + i] := data[i];
      }
      t := Slice(grown, 0, n);
    }
  }

  lemma SubSlice(a: seq<Byte>, n: nat, lo: nat, hi: nat)
    requires lo <= hi <= n <= |a|
    ensures a[..n][lo..hi] == a[lo..hi]
  {
  }

  /** Several appends, one after the other. */
  method AppendAll(s: Slice, pieces: seq<seq<Byte>>) returns (t: Slice)
    requires InBounds(s) && s.lo == 0
    modifies s.arr
    ensures InBounds(t) && t.lo == 0 && Read(t) == old(Read(s)) + Join(pieces)
    ensures t.arr == s.arr || fresh(t.arr)
    ensures s.hi <= t.hi && s.arr[..s.hi] == old(s.arr[..s.hi])
  {
    t := s;
    for i := 0 to |pieces|
      invariant InBounds(t) && t.lo == 0 && (t.arr == s.arr || fresh(t.arr)) && s.hi <= t.hi
      invariant Read(t) == old(Read(s)) + Join(pieces[..i])
      invariant s.arr[..s.hi] == old(s.arr[..s.hi])
    {
      t := Append(t, pieces[i]);
      assert pieces[..i + 1] == pieces[..i] + [pieces[i]];
      JoinConcat(pieces[..i], [pieces[i]]);
      JoinOne(pieces[i]);
    }
    assert pieces[..|pieces|] == pieces;
  }

  // ---- arguments ----

  const TEXT: int := 0
  const BINARY: int := 1

  /**
   What an encoder does with the buffer it is given: it appends pieces, one after the other, and then returns
   the buffer, or nil for NULL, or an error.
   */
  datatype Encoder = Gives(pieces: seq<seq<Byte>>) | GivesNull(pieces: seq<seq<Byte>>) | Errs(pieces: seq<seq<Byte>>)

  /**
   An argument, as the tests in `encodeExtendedParamValue` see it: it may encode itself in either format, it
   may ask for a format, and otherwise `rest` says what is tried. A nil pointer still has a type, which may ask
   for a format or know how to encode itself; a pointer to a string counts as text.
   */
  datatype Arg =
    | Nil
    | NilPointer(wants: Option<int>, isBinary: bool, isText: bool)
    | Str(bytes: seq<Byte>)
    | Other(prefers: Option<int>, text: Option<Encoder>, binary: Option<Encoder>, stringPointer: bool, rest: Rest)

  datatype Rest =
    | Target(arg: Arg)  // a pointer is followed
    | TypeTakes(arg: Arg)  // the parameter's type takes the value and is encoded in its place
    | Converts(arg: Arg)  // the type refuses it, but the value converts itself
    | Refused  // the type refuses it, or the conversion fails
    | ValueType(enc: Encoder)  // no type is known for the parameter, but one for the value
    | Stripped(arg: Arg)  // a named type is reduced to its basic type
    | Hopeless

  /** The format an argument is sent in; `byOid` is what the parameter's type asks for. */
  function ChooseFormat(a: Arg, byOid: int): int {
    match a
    case Nil => byOid
    case NilPointer(wants, isBinary, isText) =>
      if wants.Some? then wants.value else if isBinary then BINARY else if isText then TEXT else byOid
    case Str(_) => TEXT
    case Other(prefers, text, binary, stringPointer, _) =>
      if prefers.Some? then prefers.value
      else if binary.Some? then BINARY
      else if stringPointer || text.Some? then TEXT
      else byOid
  }

  function Joined(e: Encoder): Option<Field> {
    match e
    case Gives(ps) => Some(Value(Join(ps)))
    case GivesNull(_) => Some(Null)
    case Errs(_) => None
  }

  /** What an argument is encoded to, wherever the bytes are put; nothing if it cannot be. */
  function ValueOf(a: Arg, format: int): Option<Field> {
    match a
    case Nil => Some(Null)
    case NilPointer(_, _, _) => Some(Null)
    case Str(b) => Some(Value(b))
    case Other(_, text, binary, _, rest) =>
      if format == TEXT && text.Some? then Joined(text.value)
      else if format == BINARY && binary.Some? then Joined(binary.value)
      else ValueOfRest(rest, format)
  }

  function ValueOfRest(rest: Rest, format: int): Option<Field> {
    match rest
    case Target(t) => ValueOf(t, format)
    case TypeTakes(v) => ValueOf(v, format)
    case Converts(v) => ValueOf(v, format)
    case Refused => None
    case ValueType(e) => Joined(e)
    case Stripped(v) => ValueOf(v, format)
    case Hopeless => None
  }

  /** What an argument comes down to in a format. */
  datatype Core = IsNil | IsBytes(bytes: seq<Byte>) | EncodedBy(enc: Encoder) | IsRefused

  /** `c` is reached from `a` by following pointers, types, conversions and named types to what encodes itself. */
  ghost predicate ComesDownTo(a: Arg, format: int, c: Core)
    decreases a
  {
    match a
    case Nil => c == IsNil
    case NilPointer(_, _, _) => c == IsNil
    case Str(b) => c == IsBytes(b)
    case Other(_, text, binary, _, rest) =>
      if (format == 0 && text.Some?) || (format == 1 && binary.Some?)
      then c == EncodedBy(if format == 0 then text.value else binary.value)
      else match rest
        case Target(t) => ComesDownTo(t, format, c)
        case TypeTakes(t) => ComesDownTo(t, format, c)
        case Converts(t) => ComesDownTo(t, format, c)
        case Stripped(t) => ComesDownTo(t, format, c)
        case ValueType(e) => c == EncodedBy(e)
        case Refused => c == IsRefused
        case Hopeless => c == IsRefused
  }

  /**
   NULL comes from nothing but nil, a nil pointer, or an encoder that gives NULL; a value is the bytes of a string or
   what an encoder gave, all of it and in order; and anything else cannot be encoded.
   */
  lemma {:induction false} ValueExactly(a: Arg, format: int, c: Core)
    requires ComesDownTo(a, format, c)
    ensures ValueOf(a, format) == Some(Null) <==> c == IsNil || (c.EncodedBy? && c.enc.GivesNull?)
    ensures forall b :: ValueOf(a, format) == Some(Value(b)) <==>
              c == IsBytes(b) || (c.EncodedBy? && c.enc.Gives? && b == Join(c.enc.pieces))
    ensures ValueOf(a, format) == None <==> c == IsRefused || (c.EncodedBy? && c.enc.Errs?)
    decreases a
  {
    if a.Other? && !(format == TEXT && a.text.Some?) && !(format == BINARY && a.binary.Some?) {
      match a.rest
      case Target(t) => ValueExactly(t, format, c);
      case TypeTakes(t) => ValueExactly(t, format, c);
      case Converts(t) => ValueExactly(t, format, c);
      case Stripped(t) => ValueExactly(t, format, c);
      case _ =>
    }
  }

  /**
   A string goes as text. What encodes itself in the format it asks for, or asks for none, is sent in a format in which
   it does, binary before text. What does not encode itself goes in the format of the parameter's type.
   */
  lemma {:induction false} OwnEncoder(a: Arg, byOid: int)
    ensures a.Str? ==> ChooseFormat(a, byOid) == 0
    ensures a.Other? ==>
              var f := ChooseFormat(a, byOid);
              && (a.binary.Some? && (a.prefers == None || a.prefers == Some(1)) ==>
                    f == 1 && ComesDownTo(a, f, EncodedBy(a.binary.value)))
              && (a.text.Some? && ((a.prefers == None && a.binary == None) || a.prefers == Some(0)) ==>
                    f == 0 && ComesDownTo(a, f, EncodedBy(a.text.value)))
              && (a.prefers == None && a.binary == None && a.text == None ==> f == if a.stringPointer then 0 else byOid)
  {
  }

  // ---- the builder ----

  class ExtendedQueryBuilder {
    var paramValues: seq<Option<Slice>>  // None is a nil slice, which is sent as NULL
    var paramValueBytes: Option<Slice>
    var paramFormats: seq<int>
    var resultFormats: seq<int>
    ghost var values: seq<Field>  // what each parameter must read as
    ghost var Repr: set<array<Byte>>

    constructor ()
      ensures Valid() && values == [] && paramFormats == [] && resultFormats == [] && Repr == {}
    {
      paramValues, paramValueBytes, paramFormats, resultFormats := [], None, [], [];
      values, Repr := [], {};
    }

    /** `v` reads as `f`, and lies in the used part of the buffer if it is in it. */
    ghost predicate Reads(v: Option<Slice>, f: Field)
      reads this, Repr
    {
      match v
      case None => f == Null
      case Some(s) =>
        && s.arr in Repr && InBounds(s) && f == Value(Read(s))
        && (paramValueBytes.Some? && s.arr == paramValueBytes.value.arr ==> s.hi <= paramValueBytes.value.hi)
    }

    ghost predicate Valid()
      reads this, Repr
    {
      && |paramValues| == |values|
      && (paramValueBytes.Some? ==>
            paramValueBytes.value.arr in Repr && InBounds(paramValueBytes.value) && paramValueBytes.value.lo == 0)
      && forall i :: 0 <= i < |values| ==> Reads(paramValues[i], values[i])
    }

    method Reset()
      requires Valid()
      modifies this
      ensures Valid() && values == [] && paramFormats == [] && resultFormats == []
      ensures paramValueBytes.Some? ==> paramValueBytes.value.hi == 0 && paramValueBytes.value.arr.Length <= 256
      ensures fresh(Repr - old(Repr))
    {
      paramValues, paramFormats, resultFormats, values := [], [], [], [];
      if paramValueBytes.Some? {
        paramValueBytes := Some(paramValueBytes.value.(hi := 0));
        if paramValueBytes.value.arr.Length > 256 {
          var small := new Byte[256];
          paramValueBytes := Some(Slice(small, 0, 0));
          Repr := Repr + {small};
        }
      }
    }

    /** Runs an encoder on the buffer. On success the buffer is the extended one, and the value its new part. */
    method RunEncoder(e: Encoder) returns (v: Option<Slice>, ok: bool)
      requires Valid() && paramValueBytes.Some?
      modifies `paramValueBytes, `Repr, paramValueBytes.value.arr
      ensures Valid() && fresh(Repr - old(Repr)) && paramValueBytes.Some?
      ensures ok == Joined(e).Some?
      ensures ok ==> Reads(v, Joined(e).value)
    {
      var before := paramValueBytes.value;
      var pos := before.hi;
      var buf := AppendAll(before, e.pieces);
      // every earlier value is in another array, or in the part of this one that was not written
      forall i | 0 <= i < |values|
        ensures Reads(paramValues[i], values[i])
      {
        assert old(Reads(paramValues[i], values[i]));
        if paramValues[i].Some? && paramValues[i].value.arr == before.arr {
          var s := paramValues[i].value;
          SubSlice(before.arr[..], pos, s.lo, s.hi);
          SubSlice(old(before.arr[..]), pos, s.lo, s.hi);
        }
      }
      match e
      case Errs(_) => return None, false;
      case GivesNull(_) => return None, true;
      case Gives(_) =>
        Repr := Repr + {buf.arr};
        paramValueBytes := Some(buf);
        return Some(Slice(buf.arr, pos, buf.hi)), true;
    }

    /** A copy of the bytes of a string, outside the buffer. */
    method CopyOf(bytes: seq<Byte>) returns (v: Option<Slice>)
      requires Valid()
      modifies `Repr
      ensures Valid() && fresh(Repr - old(Repr)) && Reads(v, Value(bytes))
    {
      var arr := new Byte[|bytes|];
      forall i | 0 <= i < |bytes| {
        arr[i] := bytes[i];
      }
      Repr := Repr + {arr};
      assert arr[0..|bytes|] == bytes;
      v := Some(Slice(arr, 0, |bytes|));
    }

    method EnsureBuffer()
      requires Valid()
      modifies `paramValueBytes, `Repr
      ensures Valid() && fresh(Repr - old(Repr)) && paramValueBytes.Some?
    {
      if paramValueBytes.None? {
        var arr := new Byte[128];
        Repr := Repr + {arr};
        paramValueBytes := Some(Slice(arr, 0, 0));
      }
    }

    method EncodeParamValue(format: int, a: Arg) returns (v: Option<Slice>, ok: bool)
      requires Valid()
      modifies `paramValueBytes, `Repr, Repr
      ensures Valid() && fresh(Repr - old(Repr))
      ensures ok == ValueOf(a, format).Some?
      ensures ok ==> Reads(v, ValueOf(a, format).value)
      decreases a
    {
      if a.Nil? || a.NilPointer? {
        return None, true;
      }
      EnsureBuffer();
      match a
      case Str(bytes) =>
        v := CopyOf(bytes);
        ok := true;
      case Other(_, text, binary, _, rest) =>
        if format == TEXT && text.Some? {
          v, ok := RunEncoder(text.value);
        } else if format == BINARY && binary.Some? {
          v, ok := RunEncoder(binary.value);
        } else {
          v, ok := EncodeRest(format, rest);
        }
    }

    /** The part of `encodeExtendedParamValue` for a value that does not encode itself. */
    method EncodeRest(format: int, rest: Rest) returns (v: Option<Slice>, ok: bool)
      requires Valid() && paramValueBytes.Some?
      modifies `paramValueBytes, `Repr, Repr
      ensures Valid() && fresh(Repr - old(Repr))
      ensures ok == ValueOfRest(rest, format).Some?
      ensures ok ==> Reads(v, ValueOfRest(rest, format).value)
      decreases rest
    {
      match rest
      case Target(t) => v, ok := EncodeParamValue(format, t);
      case TypeTakes(x) => v, ok := EncodeParamValue(format, x);
      case Converts(x) => v, ok := EncodeParamValue(format, x);
      case Refused => return None, false;
      case ValueType(e) => v, ok := RunEncoder(e);
      case Stripped(x) => v, ok := EncodeParamValue(format, x);
      case Hopeless => return None, false;
    }

    /**
     Adds a parameter. Every parameter added since the last reset still reads as it was encoded, in the same
     array as before or in an older one. When the argument cannot be encoded, its format stays behind.
     */
    method AppendParam(byOid: int, a: Arg) returns (ok: bool)
      requires Valid()
      modifies this, Repr
      ensures Valid() && fresh(Repr - old(Repr)) && resultFormats == old(resultFormats)
      ensures paramFormats == old(paramFormats) + [ChooseFormat(a, byOid)]
      ensures ok == ValueOf(a, ChooseFormat(a, byOid)).Some?
      ensures values == old(values) + (if ok then [ValueOf(a, ChooseFormat(a, byOid)).value] else [])
    {
      var f := ChooseFormat(a, byOid);
      paramFormats := paramFormats + [f];
      var v;
      v, ok := EncodeParamValue(f, a);
      if ok {
        paramValues, values := paramValues + [v], values + [ValueOf(a, f).value];
      }
    }

    method AppendResultFormat(f: int)
      requires Valid()
      modifies `resultFormats
      ensures Valid() && resultFormats == old(resultFormats) + [f]
    {
      resultFormats := resultFormats + [f];
    }
  }

  /** What each argument is encoded to, in the format chosen for it. */
  ghost predicate AllEncoded(args: seq<Arg>, byOids: seq<int>, values: seq<Field>, formats: seq<int>)
    requires |args| <= |byOids|
  {
    && |values| == |formats| == |args|
    && forall i :: 0 <= i < |args| ==>
         formats[i] == ChooseFormat(args[i], byOids[i]) && ValueOf(args[i], formats[i]) == Some(values[i])
  }

  /**
   The preparation of an extended query. On success there is one value and one format for each argument, each
   value slice reads as its own argument was encoded, and a nil slice stands for NULL and nothing else.
   */
  method PrepareParams(eqb: ExtendedQueryBuilder, byOids: seq<int>, args: seq<Arg>, fields: seq<int>)
    returns (ok: bool)
    requires eqb.Valid()
    modifies eqb, eqb.Repr
    ensures eqb.Valid() && fresh(eqb.Repr - old(eqb.Repr))
    ensures ok <==> |args| == |byOids|
                    && forall i :: 0 <= i < |args| ==> ValueOf(args[i], ChooseFormat(args[i], byOids[i])).Some?
    ensures ok ==> AllEncoded(args, byOids, eqb.values, eqb.paramFormats) && eqb.resultFormats == fields
    ensures ok ==> forall i :: 0 <= i < |args| ==>
              match eqb.paramValues[i]
              case None => eqb.values[i] == Null
              case Some(s) => InBounds(s) && eqb.values[i] == Value(Read(s))
  {
    if |byOids| != |args| {
      return false;
    }
    eqb.Reset();
    for i := 0 to |args|
      invariant eqb.Valid() && fresh(eqb.Repr - old(eqb.Repr)) && eqb.resultFormats == []
      invariant AllEncoded(args[..i], byOids, eqb.values, eqb.paramFormats)
    {
      ok := eqb.AppendParam(byOids[i], args[i]);
      if !ok {
        return;
      }
    }
    assert args[..|args|] == args;
    for i := 0 to |fields|
      invariant eqb.Valid() && fresh(eqb.Repr - old(eqb.Repr)) && eqb.resultFormats == fields[..i]
      invariant AllEncoded(args, byOids, eqb.values, eqb.paramFormats)
    {
      eqb.AppendResultFormat(fields[i]);
    }
    forall i | 0 <= i < |args|
      ensures eqb.Reads(eqb.paramValues[i], eqb.values[i])
    {
    }
    ok := true;
  }
}
