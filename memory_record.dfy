/**
 * A memory as the front-end pages hold it: the fields the pages read.  The
 * backend's memory serializer sends all of them except `user` and `people`;
 * the pages read those two all the same, and the model keeps them as plain
 * fields.  Text fields the backend may send as null are "" here, since the
 * pages only test them for truthiness.
 */
module MemoryRecord {
  import ImageUrl

  datatype Memory = Memory(
    id: int,
    user: int,
    username: string,
    title: string,
    description: string,
    date: string,
    location: string,
    tag: string,
    people: seq<string>,
    resolvedImageUrl: string,
    imageUrl: string,
    image: string)

  function Id(m: Memory): int { m.id }

  /** `{ ...m, image: formatImageUrl(m.resolved_image_url || m.image_url || m.image || null) }`. */
  function WithFormattedImage(m: Memory): (r: Memory)
    ensures r == m.(image := r.image)
    ensures r.image == "" <==> m.resolvedImageUrl == "" && m.imageUrl == "" && m.image == ""
    ensures m.resolvedImageUrl != "" ==> r.image == ImageUrl.FormatImageUrl(m.resolvedImageUrl).value
  {
    m.(image := ImageUrl.MemoryImage(m.resolvedImageUrl, m.imageUrl, m.image).GetOr(""))
  }
}
