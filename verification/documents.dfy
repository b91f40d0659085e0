/**
 * A row returned by the `match_documents` similarity search (one chunk of
 * a post or a training note), and how the Python agent and the TypeScript
 * routes render its optional text fields.
 */
module Documents {
  import opened Wrappers
  import opened Strings

  /** A text column of a row: missing from the row, SQL NULL, or a string. */
  datatype Field = Absent | Null | Str(text: string)

  datatype Document = Document(
    id: string,
    title: Field,
    content: Field,
    contentWithContext: Field,
    url: Field,
    similarity: real)

  /** JavaScript truthiness of a field. */
  predicate Truthy(f: Field) { f.Str? && f.text != [] }

  /** `field || fallback`. */
  function OrElse(f: Field, fallback: string): (r: string)
    ensures Truthy(f) ==> r == f.text
    ensures !Truthy(f) ==> r == fallback
  {
    if Truthy(f) then f.text else fallback
  }

  /** `${field}` in a template literal. */
  function Interpolate(f: Field): (r: string)
    ensures f.Str? ==> r == f.text
  {
    match f
    case Absent => "undefined"
    case Null => "null"
    case Str(s) => s
  }

  /** Python `dict.get(key, default)`: the default replaces only a missing key. */
  function PyGet(f: Field, default: string): (r: Field)
    ensures f.Absent? ==> r == Str(default)
    ensures !f.Absent? ==> r == f
  {
    if f.Absent? then Str(default) else f
  }

  /** Python `str(value)` of a field inside an f-string: `None` for SQL NULL. */
  function PyStr(f: Field): string
    requires !f.Absent?
  {
    if f.Null? then "None" else f.text
  }

  const TitleFallback: string := "제목 없음"
  const NoDocumentsMessage: string := "관련 문서를 찾을 수 없습니다."
}
