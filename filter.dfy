/** CRUDZillaFilter: the base class of every search filter. It carries the sort
    direction and column, the page size (clamped to at most 100) and the offset;
    a concrete filter adds its own declared fields, which alone feed `hashCode`. */
module Filter {
  import opened Wrappers
  import opened Text

  /** QueryDSL's sort direction. */
  datatype Order = Asc | Desc

  const DefaultPageSize: Int32 := 15
  const MaxPageSize: Int32 := 100

  /** The value of a field declared by a concrete filter class, with the hash code its
      own `hashCode` gives (Integer: the value; Boolean: 1231 or 1237; String: the
      string hash; any other type: the hash carried alongside its value). */
  datatype Datum =
    | IntDatum(i: Int32)
    | BoolDatum(b: bool)
    | StringDatum(s: string)
    | OtherDatum(key: string, hash: Int32)
  {
    function HashCode(): Int32 {
      match this
      case IntDatum(i) => i
      case BoolDatum(b) => if b then 1231 else 1237
      case StringDatum(s) => StringHash(s)
      case OtherDatum(_, h) => h
    }
  }

  /** The text `hashCode` accumulates: the decimal hash of each non-null own field, in
      declaration order. */
  function HashText(own: seq<Option<Datum>>): string
  {
    if |own| == 0 then ""
    else HashText(own[..|own| - 1]) + (match own[|own| - 1]
                                       case None => ""
                                       case Some(d) => IntToString(d.HashCode()))
  }

  /** A snapshot of every field of a filter, inherited and own, with its runtime class. */
  datatype FilterState = FilterState(
    runtimeClass: string,
    direcaoOrdenacao: Option<Order>,
    colunaOrdenacao: Option<string>,
    tamanhoPagina: Int32,
    offset: Int32,
    ownFields: seq<Option<Datum>>)

  /** The hash code of a filter whose own declared fields hold `own`. */
  function FilterHash(own: seq<Option<Datum>>): Int32
  {
    StringHash(HashText(own))
  }

  class CRUDZillaFilter {
    /** The concrete filter class, which `equals` compares. */
    const runtimeClass: string
    var direcaoOrdenacao: Option<Order>
    var colunaOrdenacao: Option<string>
    var tamanhoPagina: Int32
    var offset: Int32
    /** The fields declared by the concrete class itself, in declaration order. */
    var ownFields: seq<Option<Datum>>

    function State(): (st: FilterState)
      reads this
      ensures st.runtimeClass == runtimeClass && st.ownFields == ownFields
      ensures st.tamanhoPagina == tamanhoPagina && st.offset == offset
      ensures st.direcaoOrdenacao == direcaoOrdenacao && st.colunaOrdenacao == colunaOrdenacao
    {
      FilterState(runtimeClass, direcaoOrdenacao, colunaOrdenacao, tamanhoPagina, offset, ownFields)
    }

    /** The page size never exceeds the maximum. */
    ghost predicate Valid()
      reads this
    {
      tamanhoPagina <= MaxPageSize
    }

    /** A new filter sorts ascending on the empty column, fifteen rows from row zero. */
    constructor (runtimeClass: string, ownFields: seq<Option<Datum>>)
      ensures Valid()
      ensures this.runtimeClass == runtimeClass && this.ownFields == ownFields
      ensures direcaoOrdenacao == Some(Asc) && colunaOrdenacao == Some("")
      ensures tamanhoPagina == DefaultPageSize && offset == 0
    {
      this.runtimeClass := runtimeClass;
      this.ownFields := ownFields;
      direcaoOrdenacao := Some(Asc);
      colunaOrdenacao := Some("");
      tamanhoPagina := DefaultPageSize;
      offset := 0;
    }

    method SetDirecaoOrdenacao(direcao: Option<Order>)
      requires Valid()
      modifies this
      ensures Valid()
      ensures direcaoOrdenacao == direcao
      ensures colunaOrdenacao == old(colunaOrdenacao) && tamanhoPagina == old(tamanhoPagina)
      ensures offset == old(offset) && ownFields == old(ownFields)
    {
      direcaoOrdenacao := direcao;
    }

    method SetColunaOrdenacao(coluna: Option<string>)
      requires Valid()
      modifies this
      ensures Valid()
      ensures colunaOrdenacao == coluna
      ensures direcaoOrdenacao == old(direcaoOrdenacao) && tamanhoPagina == old(tamanhoPagina)
      ensures offset == old(offset) && ownFields == old(ownFields)
    {
      colunaOrdenacao := coluna;
    }

    /** setTamanhoPagina: sizes up to 100 are kept, negative ones included; larger ones become 100. */
    method SetTamanhoPagina(size: Int32)
      modifies this
      ensures Valid()
      ensures size <= MaxPageSize ==> tamanhoPagina == size
      ensures size > MaxPageSize ==> tamanhoPagina == MaxPageSize
      ensures direcaoOrdenacao == old(direcaoOrdenacao) && colunaOrdenacao == old(colunaOrdenacao)
      ensures offset == old(offset) && ownFields == old(ownFields)
    {
      if size <= MaxPageSize {
        tamanhoPagina := size;
      } else {
        tamanhoPagina := MaxPageSize;
      }
    }

    /** setOffset: any value is stored, negative ones included. */
    method SetOffset(offset: Int32)
      requires Valid()
      modifies this
      ensures Valid()
      ensures this.offset == offset
      ensures direcaoOrdenacao == old(direcaoOrdenacao) && colunaOrdenacao == old(colunaOrdenacao)
      ensures tamanhoPagina == old(tamanhoPagina) && ownFields == old(ownFields)
    {
      this.offset := offset;
    }

    /** Sets one of the concrete class's own fields, as its own setter would. */
    method SetOwnField(i: nat, value: Option<Datum>)
      requires Valid()
      requires i < |ownFields|
      modifies this
      ensures Valid()
      ensures ownFields == old(ownFields)[i := value]
      ensures direcaoOrdenacao == old(direcaoOrdenacao) && colunaOrdenacao == old(colunaOrdenacao)
      ensures tamanhoPagina == old(tamanhoPagina) && offset == old(offset)
    {
      ownFields := ownFields[i := value];
    }

    /** equals: false for null and for another runtime class; otherwise every field,
        inherited or own, must be equal. */
    function Equals(o: object?): (r: bool)
      reads this, o
      ensures r ==> o != null && o is CRUDZillaFilter
      ensures r <==> o is CRUDZillaFilter && SameFields(this, o as CRUDZillaFilter)
    {
      o != null && o is CRUDZillaFilter && SameFields(this, o as CRUDZillaFilter)
    }

    /** hashCode: the string hash of the concatenated decimal hashes of the non-null
        own fields; the inherited sorting and paging fields do not take part. */
    method HashCode() returns (h: Int32)
      ensures h == FilterHash(ownFields)
    {
      var text := "";
      for i := 0 to |ownFields|
        invariant text == HashText(ownFields[..i])
      {
        assert ownFields[..i + 1][..i] == ownFields[..i];
        match ownFields[i]
        case None =>
        case Some(d) => text := text + IntToString(d.HashCode());
      }
      assert ownFields[..|ownFields|] == ownFields;
      h := StringHash(text);
    }
  }

  /** Same runtime class and equal values in every field. */
  predicate SameFields(a: CRUDZillaFilter, b: CRUDZillaFilter)
    reads a, b
  {
    a.State() == b.State()
  }

  /** Equal filters have equal hash codes. */
  lemma EqualFiltersHashEqually(a: CRUDZillaFilter, b: CRUDZillaFilter)
    requires a.Equals(b)
    ensures FilterHash(a.ownFields) == FilterHash(b.ownFields)
  {
  }

  /** `equals` is an equivalence on filters. */
  lemma EqualsIsEquivalence(a: CRUDZillaFilter, b: CRUDZillaFilter, c: CRUDZillaFilter)
    ensures a.Equals(a)
    ensures a.Equals(b) ==> b.Equals(a)
    ensures a.Equals(b) && b.Equals(c) ==> a.Equals(c)
  {
  }

  /** Filters of one class that differ only in paging are unequal but collide:
      the hash ignores the inherited fields. */
  lemma PagingDoesNotAffectHash(a: CRUDZillaFilter, b: CRUDZillaFilter)
    requires a.runtimeClass == b.runtimeClass && a.ownFields == b.ownFields
    requires a.tamanhoPagina != b.tamanhoPagina
    ensures !a.Equals(b)
    ensures FilterHash(a.ownFields) == FilterHash(b.ownFields)
  {
  }

  /** A filter whose own fields are all null hashes to 0, the hash of the empty string. */
  lemma {:induction false} AllNullHashesToZero(own: seq<Option<Datum>>)
    requires forall i :: 0 <= i < |own| ==> own[i].None?
    ensures HashText(own) == ""
    ensures FilterHash(own) == 0
    decreases |own|
  {
    if |own| > 0 {
      AllNullHashesToZero(own[..|own| - 1]);
    }
  }
}
