/** The field tables of hbase_types.h / hbase_types.cpp, one per generated struct. */
module HBaseTypes {
  import opened ThriftBinary
  import opened Schema

  function Req(id: int, s: Shape): Field { Field(id, s, Required, None) }
  function Opt(id: int, s: Shape): Field { Field(id, s, Optional, None) }
  function OptPreset(id: int, s: Shape, n: int): Field { Field(id, s, Optional, Some(n)) }
  function Always(id: int, s: Shape): Field { Field(id, s, Plain, None) }
  function AlwaysPreset(id: int, s: Shape, n: int): Field { Field(id, s, Plain, Some(n)) }

  const I32 := SInt(4)
  const I64 := SInt(8)

  const TTimeRange := SStruct([Req(1, I64), Req(2, I64)])
  const TColumn := SStruct([Req(1, SStr), Opt(2, SStr), Opt(3, I64)])
  const TColumnValue := SStruct([Req(1, SStr), Req(2, SStr), Req(3, SStr), Opt(4, I64), Opt(5, SStr)])
  const TColumnIncrement := SStruct([Req(1, SStr), Req(2, SStr), OptPreset(3, I64, 1)])
  const TResult := SStruct([Opt(1, SStr), Req(2, SList(TColumnValue))])
  const TAuthorization := SStruct([Opt(1, SList(SStr))])
  const TCellVisibility := SStruct([Opt(1, SStr)])
  const TGet := SStruct([
    Req(1, SStr), Opt(2, SList(TColumn)), Opt(3, I64), Opt(4, TTimeRange), Opt(5, I32),
    Opt(6, SStr), Opt(7, SMap), Opt(8, TAuthorization)])
  const TPut := SStruct([
    Req(1, SStr), Req(2, SList(TColumnValue)), Opt(3, I64), Opt(5, SMap), Opt(6, I32),
    Opt(7, TCellVisibility)])
  const TDelete := SStruct([
    Req(1, SStr), Opt(2, SList(TColumn)), Opt(3, I64), OptPreset(4, I32, 1), Opt(6, SMap), Opt(7, I32)])
  const TIncrement := SStruct([
    Req(1, SStr), Req(2, SList(TColumnIncrement)), Opt(4, SMap), Opt(5, I32), Opt(6, TCellVisibility)])
  const TAppend := SStruct([
    Req(1, SStr), Req(2, SList(TColumnValue)), Opt(3, SMap), Opt(4, I32), Opt(5, TCellVisibility)])
  const TScan := SStruct([
    Opt(1, SStr), Opt(2, SStr), Opt(3, SList(TColumn)), Opt(4, I32), OptPreset(5, I32, 1),
    Opt(6, TTimeRange), Opt(7, SStr), Opt(8, I32), Opt(9, SMap), Opt(10, TAuthorization), Opt(11, SBool)])
  // Both arms are written and compared whatever their flags say
  const TMutation := SStruct([Always(1, TPut), Always(2, TDelete)])
  const TRowMutations := SStruct([Req(1, SStr), Req(2, SList(TMutation))])
  const TIOError := SStruct([Opt(1, SStr)])
  const TIllegalArgument := SStruct([Opt(1, SStr)])

  lemma {:induction false} GoodTable(fs: seq<Field>)
    requires forall i | 0 <= i < |fs| :: 0 <= fs[i].id < 0x8000 && GoodShape(fs[i].shape)
    requires forall i | 0 <= i < |fs| :: fs[i].preset.Some? ==>
               !fs[i].kind.Required? && fs[i].shape.SInt? && InRange(fs[i].shape.width, fs[i].preset.value)
    requires forall i, j | 0 <= i < j < |fs| :: fs[i].id < fs[j].id
    ensures GoodShape(SStruct(fs))
  {
    forall i | 0 <= i < |fs| ensures GoodField(fs[i]) {
      assert Pow256(2) == 0x1_0000;
    }
  }

  lemma {:induction false} GoodList(e: Shape)
    requires GoodShape(e)
    ensures GoodShape(SList(e))
  {
  }

  lemma {:induction false} LeafTablesAreGood()
    ensures GoodShape(TTimeRange) && GoodShape(TColumn) && GoodShape(TColumnValue) && GoodShape(TColumnIncrement)
    ensures GoodShape(TAuthorization) && GoodShape(TCellVisibility) && GoodShape(TResult)
    ensures GoodShape(TIOError) && GoodShape(TIllegalArgument)
  {
    GoodTable(TTimeRange.fields);
    GoodTable(TColumn.fields);
    GoodTable(TColumnValue.fields);
    GoodTable(TColumnIncrement.fields);
    GoodList(SStr);
    GoodTable(TAuthorization.fields);
    GoodTable(TCellVisibility.fields);
    GoodList(TColumnValue);
    GoodTable(TResult.fields);
    GoodTable(TIOError.fields);
    GoodTable(TIllegalArgument.fields);
  }

  lemma {:induction false} ReadTablesAreGood()
    ensures GoodShape(TGet) && GoodShape(TScan)
  {
    LeafTablesAreGood();
    GoodList(TColumn);
    GoodTable(TGet.fields);
    GoodTable(TScan.fields);
  }

  lemma {:induction false} WriteTablesAreGood()
    ensures GoodShape(TPut) && GoodShape(TDelete) && GoodShape(TIncrement) && GoodShape(TAppend)
    ensures GoodShape(TMutation) && GoodShape(TRowMutations)
  {
    LeafTablesAreGood();
    GoodList(TColumn);
    GoodList(TColumnValue);
    GoodList(TColumnIncrement);
    GoodTable(TPut.fields);
    GoodTable(TDelete.fields);
    GoodTable(TIncrement.fields);
    GoodTable(TAppend.fields);
    GoodTable(TMutation.fields);
    GoodList(TMutation);
    GoodTable(TRowMutations.fields);
  }
}
