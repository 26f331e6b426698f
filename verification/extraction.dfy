/**
 * The shape of the bulk-export query built by sql_query: which department join and which
 * department filter it carries. The rest of the query text (columns, aggregates, the
 * coverage-ratio expression) is the same for every area and is not modelled.
 */
module Extraction {
  import opened Wrappers
  import opened Areas

  const DepartmentTable := "batid_department_subdivided"
  const JoinHead := " LEFT JOIN "
  const JoinTail := " AS dpt ON ST_Intersects(dpt.shape, bdg.point)"
  const FilterPrefix := " AND dpt.code = '"
  const FilterSuffix := "'"

  /** The join on the department table (if any) and the department code filtered on (if any). */
  datatype QueryShape = QueryShape(departmentJoin: Option<string>, departmentFilter: Option<string>)

  function SqlQuery(area: string): (q: QueryShape)
    ensures q.departmentJoin.None? <==> area == NationalArea
    ensures q.departmentFilter.None? <==> area == NationalArea
    ensures q.departmentJoin.Some? ==> q.departmentJoin.value == DepartmentTable
    ensures q.departmentFilter.Some? ==> q.departmentFilter.value == area
  {
    if area == NationalArea then QueryShape(None, None)
    else QueryShape(Some(DepartmentTable), Some(area))
  }

  /** Reads the department code back out of a where fragment. */
  function FilterCode(where: string): Option<string>
  {
    if |where| >= |FilterPrefix| + |FilterSuffix|
       && where[..|FilterPrefix|] == FilterPrefix
       && where[|where| - |FilterSuffix|..] == FilterSuffix
    then Some(where[|FilterPrefix|..|where| - |FilterSuffix|])
    else None
  }

  /** The text spliced in after the address joins: empty, or a join that names the joined table. */
  function JoinText(q: QueryShape): (t: string)
    ensures t == "" <==> q.departmentJoin.None?
    ensures q.departmentJoin.Some? ==> Contains(t, q.departmentJoin.value)
  {
    match q.departmentJoin
    case None => ""
    case Some(table) =>
      var t := JoinHead + table + JoinTail;
      assert OccursAt(t, table, |JoinHead|) by {
        assert t[|JoinHead|..|JoinHead| + |table|] == table;
      }
      t
  }

  /** The text spliced in after `WHERE is_active`: empty, or a filter whose code reads back. */
  function WhereText(q: QueryShape): (t: string)
    ensures t == "" <==> q.departmentFilter.None?
    ensures FilterCode(t) == q.departmentFilter
  {
    match q.departmentFilter
    case None => ""
    case Some(code) =>
      var t := FilterPrefix + code + FilterSuffix;
      assert t[..|FilterPrefix|] == FilterPrefix;
      assert t[|t| - |FilterSuffix|..] == FilterSuffix;
      assert t[|FilterPrefix|..|t| - |FilterSuffix|] == code;
      t
  }

  /**
   * The rendered fragments agree with the shape: the national query has neither fragment,
   * any other area has the department join and a filter whose code is exactly that area.
   */
  lemma QueryFragments(area: string)
    ensures JoinText(SqlQuery(area)) == "" <==> area == NationalArea
    ensures WhereText(SqlQuery(area)) == "" <==> area == NationalArea
    ensures area != NationalArea ==> Contains(JoinText(SqlQuery(area)), DepartmentTable)
    ensures FilterCode(WhereText(SqlQuery(area))) == if area == NationalArea then None else Some(area)
  {
  }
}
