/**
  The field tables of messages.c and the declaration of each tag, with the offsets and sizes the
  structures of messages.h have on a 64-bit target without CONFIG_ENABLE_PREEXEC.
 */
module MessageTables {
  import opened Messages

  const REQUEST: nat := 216     // sizeof(RequestMsg)

  /** Shorthands for the rows: required, optional and cleared pointers; required and optional instances. */
  function P(off: nat): Field { Field(Pointer, off, 0, 0) }
  function O(off: nat): Field { Field(PointerOpt, off, 0, 0) }
  function N(off: nat): Field { Field(SetNull, off, 0, 0) }
  function I(off: nat, ptrOff: nat, sizeOff: nat): Field { Field(Instance, off, ptrOff, sizeOff) }
  function J(off: nat, ptrOff: nat, sizeOff: nat): Field { Field(InstanceOpt, off, ptrOff, sizeOff) }

  /** An entry of `allMessages`; messages that need no clone are sent as they are. */
  datatype Declaration =
    | Cloned(fields: seq<Field>, size: nat)
    | Shared(fields: seq<Field>, size: nat)
    | Unterminated
    | Invalid

  /** next, prev, dtor and dtorData. */
  function BaseFields(): seq<Field> { [N(0), N(8), N(72), N(80)] }

  /** regEntry's strings, then the options. */
  function RequestFields(): seq<Field> {
    [O(120), O(128), O(144), O(160), O(168), O(176), J(192, 200, 208)]
  }

  function InvokeFields(): seq<Field> { [P(216), P(224), O(232), J(240, 256, 272), J(248, 264, 276)] }
  function NamedInstanceFields(): seq<Field> { [P(216), I(224, 232, 240)] }
  function EnumerateFields(): seq<Field> {
    [P(216), O(224), O(232)] + [O(256), O(264), N(240), J(272, 280, 288), N(296)]
  }
  function AssociationFields(): seq<Field> {
    [P(216), O(256), O(224), O(232), O(240), O(248), I(264, 272, 280)]
  }

  predicate IsRequest(tag: nat) { tag / 0x1000 % 2 == 1 }
  function IndexOfTag(tag: nat): nat { tag % 0x1000 }

  function DeclarationOf(index: nat): Declaration {
    match index
    case 1 => Cloned(NamedInstanceFields(), 256)                      // GetInstanceReq
    case 2 => Cloned([I(88, 96, 104)], 112)                           // PostInstanceMsg
    case 3 => Cloned(EnumerateFields(), 312)                          // EnumerateInstancesReq
    case 7 => Cloned(InvokeFields(), 280)                             // InvokeReq
    case 8 => Cloned(AssociationFields(), 288)                        // AssociatorsOfReq
    case 9 => Cloned(AssociationFields(), 288)                        // ReferencesOfReq
    case 10 => Cloned([P(216), O(224), O(232), P(248), P(256)], 272)  // SubscribeReq
    case 12 => Cloned(NamedInstanceFields(), 248)                     // DeleteInstanceReq
    case 13 => Cloned(NamedInstanceFields(), 256)                     // CreateInstanceReq
    case 14 => Cloned(NamedInstanceFields(), 256)                     // ModifyInstanceReq
    case 16 => Cloned([P(216), P(224)], 232)                          // GetClassReq
    case 17 => Cloned([J(88, 96, 104), O(112)], 128)                  // PostSchemaMsg
    case 20 => Cloned([O(112), O(120), I(88, 96, 104)], 128)          // PostIndicationMsg
    case 24 => Cloned(NamedInstanceFields(), 256)                     // ShellCreateReq
    case 25 => Cloned(NamedInstanceFields(), 248)                     // ShellDeleteReq
    case 26 | 27 | 28 | 29 | 30 | 31 | 32 => Cloned(InvokeFields(), 280)
    case 33 => Unterminated                                           // PullReq: its table has no end mark
    case 34 => Cloned([O(104)], 112)                                  // CreateAgentMsg
    case 35 => Cloned([O(96), O(104)], 112)                           // PostSocketFile
    case 36 => Cloned([O(96)], 104)                                   // VerifySocketConn
    case 37 => Cloned([O(88), O(96)], 112)                            // PamCheckUserReq
    case 0 => Shared(BaseFields(), 0)
    case 4 => Shared([O(96), J(104, 120, 128), O(112)], 144)          // PostResultMsg
    case 5 | 11 => Shared([], REQUEST)                                // NoOpReq, UnsubscribeReq
    case 15 => Shared([O(96), O(104), O(192), O(208)], 216)           // BinProtocolNotification
    case 18 | 19 => Shared([], 104)                                   // HttpRequestMsg, HttpResponseMsg
    case 23 => Shared([], 96)                                         // ProtocolEventConnect
    case 38 => Shared([O(104)], 112)                                  // PamCheckUserResp
    case _ => if index < 38 then Shared([], MESSAGE) else Invalid     // NoOpRsp, SubscribeRes, CancelMsg
  }

  /** The tag has a table that ends. */
  predicate Known(tag: nat) {
    DeclarationOf(IndexOfTag(tag)).Cloned? || DeclarationOf(IndexOfTag(tag)).Shared?
  }

  /** The size of the structure; a bare message is declared with none. */
  function SizeOf(tag: nat): nat
    requires Known(tag)
  {
    var size := DeclarationOf(IndexOfTag(tag)).size;
    if size < MESSAGE then MESSAGE else size
  }

  /** The rows that concern a message with this tag. */
  function RowsOf(tag: nat): seq<Field>
    requires Known(tag)
  {
    (if IsRequest(tag) then RequestFields() else []) + DeclarationOf(IndexOfTag(tag)).fields
  }

  /** The indexes of requests in the enumeration. */
  predicate RequestIndex(index: nat) {
    index in {1, 3, 5, 7, 8, 9, 10, 11, 12, 13, 14, 16} || 24 <= index <= 33
  }

  /** Requests are exactly the tags the enumeration marks so. */
  predicate IsTag(tag: nat) { tag < 0x2000 && (IsRequest(tag) <==> RequestIndex(IndexOfTag(tag))) }

  /** The request bit is not set on an index that is none; the tables that are walked do not overlap then. */
  predicate Consistent(tag: nat) { IsRequest(tag) ==> RequestIndex(IndexOfTag(tag)) }

  predicate FieldWithin(lo: nat, hi: nat, f: Field) {
    && lo <= f.off && f.off + 8 <= hi
    && (f.kind.Packed() ==> lo <= f.ptrOff && f.ptrOff + 8 <= hi && lo <= f.sizeOff && f.sizeOff + 4 <= hi)
  }

  /** Every slot of the table lies in [lo, hi). */
  predicate Within(lo: nat, hi: nat, table: seq<Field>) {
    forall f <- table :: FieldWithin(lo, hi, f)
  }

  predicate Pairwise(size: nat, table: seq<Field>) {
    && (forall f <- table :: FieldOk(size, f))
    && (forall i, j | 0 <= i < j < |table| :: FieldsApart(table[i], table[j]))
  }

  lemma {:induction false} PairwiseIsOk(size: nat, table: seq<Field>)
    requires Pairwise(size, table)
    ensures TableOk(size, table)
  {
    if table != [] { PairwiseIsOk(size, table[1..]); }
  }

  /** Tables over consecutive parts of the structure may be joined. */
  lemma {:induction false} JoinTables(size: nat, lo: nat, mid: nat, hi: nat, t1: seq<Field>, t2: seq<Field>)
    requires Pairwise(size, t1) && Pairwise(size, t2) && Within(lo, mid, t1) && Within(mid, hi, t2)
    requires lo <= mid <= hi
    ensures Pairwise(size, t1 + t2) && Within(lo, hi, t1 + t2)
  {
    var t := t1 + t2;
    forall i, j | 0 <= i < j < |t| ensures FieldsApart(t[i], t[j]) {
      assert i < |t1| ==> t[i] in t1;
      assert i >= |t1| ==> t[i] == t2[i - |t1|];
      assert j < |t1| ==> t[j] == t1[j];
      assert j >= |t1| ==> t[j] in t2;
    }
  }

  /** `table` is well formed and occupies [lo, hi) of a structure of `size` bytes. */
  predicate Fits(size: nat, lo: nat, hi: nat, table: seq<Field>) {
    Pairwise(size, table) && Within(lo, hi, table)
  }

  lemma {:induction false} BaseFits(size: nat)
    requires MESSAGE <= size
    ensures Fits(size, 0, MESSAGE, BaseFields())
  {
  }

  lemma {:induction false} RequestFits(size: nat)
    requires REQUEST <= size
    ensures Fits(size, MESSAGE, REQUEST, RequestFields())
  {
  }

  lemma {:induction false} InvokeFits()
    ensures Fits(280, REQUEST, 280, InvokeFields())
  {
  }

  lemma {:induction false} AssociationFits()
    ensures Fits(288, REQUEST, 288, AssociationFields())
  {
  }

  lemma {:induction false} NamedInstanceFits(size: nat)
    requires 248 <= size
    ensures Fits(size, REQUEST, size, NamedInstanceFields())
  {
  }

  lemma {:induction false} EnumerateFits()
    ensures Fits(312, REQUEST, 312, EnumerateFields())
  {
    JoinTables(312, 216, 240, 312, [P(216), O(224), O(232)], [O(256), O(264), N(240), J(272, 280, 288), N(296)]);
  }

  /** The part of the structure that the tag's own table is about. */
  function OwnStart(index: nat): nat { if RequestIndex(index) then REQUEST else MESSAGE }

  lemma {:induction false} OwnFieldsFit(tag: nat)
    requires Known(tag) && IndexOfTag(tag) != 0
    ensures var d, lo := DeclarationOf(IndexOfTag(tag)), OwnStart(IndexOfTag(tag));
            lo <= d.size && Fits(d.size, lo, d.size, d.fields)
  {
    hide Fits, FieldOk, FieldsApart, InvokeFields, AssociationFields, NamedInstanceFields, EnumerateFields;
    InvokeFits();
    AssociationFits();
    EnumerateFits();
    NamedInstanceFits(248);
    NamedInstanceFits(256);
    SubscribeFits();
    ResponsesFit();
    StringTablesFit();
    SharedTablesFit();
    NoFieldsFit(MESSAGE, MESSAGE);
    NoFieldsFit(MESSAGE, 96);
    NoFieldsFit(MESSAGE, 104);
    NoFieldsFit(REQUEST, REQUEST);
  }

  lemma {:induction false} SharedTablesFit()
    ensures Fits(144, MESSAGE, 144, [O(96), J(104, 120, 128), O(112)])
    ensures Fits(216, MESSAGE, 216, [O(96), O(104), O(192), O(208)])
  {
  }

  lemma {:induction false} NoFieldsFit(lo: nat, size: nat)
    ensures Fits(size, lo, size, [])
  {
  }

  lemma {:induction false} SubscribeFits()
    ensures Fits(272, REQUEST, 272, [P(216), O(224), O(232), P(248), P(256)])
    ensures Fits(232, REQUEST, 232, [P(216), P(224)])
  {
  }

  lemma {:induction false} ResponsesFit()
    ensures Fits(112, MESSAGE, 112, [I(88, 96, 104)])
    ensures Fits(128, MESSAGE, 128, [J(88, 96, 104), O(112)])
    ensures Fits(128, MESSAGE, 128, [O(112), O(120), I(88, 96, 104)])
  {
  }

  lemma {:induction false} StringTablesFit()
    ensures Fits(112, MESSAGE, 112, [O(104)])
    ensures Fits(112, MESSAGE, 112, [O(96), O(104)])
    ensures Fits(104, MESSAGE, 104, [O(96)])
    ensures Fits(112, MESSAGE, 112, [O(88), O(96)])
  {
  }

  lemma {:induction false} FromLower(size: nat, lo: nat, mid: nat, table: seq<Field>)
    requires Fits(size, mid, size, table) && lo <= mid
    ensures Fits(size, lo, size, table)
  {
    forall f <- table ensures FieldWithin(lo, size, f) { assert FieldWithin(mid, size, f); }
  }

  /** Every table is well formed, together with the base and the request tables. */
  lemma {:induction false} TablesAreOk(tag: nat)
    requires Known(tag) && Consistent(tag) && IndexOfTag(tag) != 0
    ensures var size := SizeOf(tag);
            && size == DeclarationOf(IndexOfTag(tag)).size
            && TableOk(size, BaseFields() + RowsOf(tag)) && Within(MESSAGE, size, RowsOf(tag))
  {
    hide Pairwise, Within, BaseFields, RequestFields, DeclarationOf, RequestIndex;
    var d := DeclarationOf(IndexOfTag(tag));
    OwnFieldsFit(tag);
    BaseFits(d.size);
    if IsRequest(tag) {
      RequestFits(d.size);
      JoinTables(d.size, MESSAGE, REQUEST, d.size, RequestFields(), d.fields);
    } else {
      FromLower(d.size, MESSAGE, OwnStart(IndexOfTag(tag)), d.fields);
    }
    assert [] + d.fields == d.fields;
    JoinTables(d.size, 0, MESSAGE, d.size, BaseFields(), RowsOf(tag));
    PairwiseIsOk(d.size, BaseFields() + RowsOf(tag));
  }

  /** Every index of the table has one tag, and a request's rows start with those of all requests. */
  lemma {:induction false} TagOfIndex(index: nat)
    requires index < 39
    ensures var tag := if RequestIndex(index) then index + 0x1000 else index;
      && IsTag(tag) && IndexOfTag(tag) == index && Consistent(tag)
      && (Known(tag) <==> index != 33)
      && (index != 33 ==>
        RowsOf(tag) == (if RequestIndex(index) then RequestFields() else []) + DeclarationOf(index).fields)
  {
    hide RequestFields, BaseFields;
    assert (index + 0x1000) % 0x1000 == index && (index + 0x1000) / 0x1000 == 1;
  }
}
