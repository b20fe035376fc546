/** The values exchanged with the storage service's delimited listing call
    (S3 ListObjects): the request the handler builds and the result it
    renders. The service itself is not modelled; its delimiter behaviour is
    stated as the predicate ListedUnder, which lemmas may assume. */
module Listing {
  import opened GoStrings

  /** A last-modified time; only passed through to the page. */
  type Instant = int

  /** One entry of the listing's Contents. */
  datatype Object = Object(key: string, size: int, lastModified: Instant)

  /** ListObjectsInput as the handler fills it. */
  datatype ListRequest = ListRequest(bucket: string, delimiter: string, prefix: string)

  /** ListObjectsOutput, reduced to what the page shows: the bucket name,
      the common prefixes (folders) and the contents (objects), each in the
      order the service returns them. */
  datatype ListResult = ListResult(name: string, commonPrefixes: seq<string>, contents: seq<Object>)

  /** What the template prints for a field the service left unset (a nil
      *string in the SDK's output value). */
  const Unset := "<nil>"

  /** The empty output value the SDK hands back together with an error: no
      name, no common prefixes and no contents. */
  const EmptyResult := ListResult(Unset, [], [])

  /** The outcome of a call that can fail with an error text. */
  datatype Result<T> = Ok(value: T) | Err(message: string)

  /** What a listing with delimiter "/" returns as a common prefix of prefix:
      prefix, then a run without '/', then the first '/' after it. */
  predicate IsCommonPrefixOf(prefix: string, cp: string) {
    |prefix| < |cp| && HasPrefix(cp, prefix) && cp[|cp| - 1] == '/'
    && '/' !in cp[|prefix|..|cp| - 1]
  }

  /** What a listing with delimiter "/" returns as an object under prefix:
      a non-empty key that starts with prefix and has no '/' after it (keys
      with one are grouped into a common prefix instead). */
  predicate IsDirectChild(prefix: string, key: string) {
    key != [] && HasPrefix(key, prefix) && '/' !in key[|prefix|..]
  }

  /** The service's side of the contract for a delimited listing of prefix. */
  predicate ListedUnder(prefix: string, res: ListResult) {
    && (forall cp :: cp in res.commonPrefixes ==> IsCommonPrefixOf(prefix, cp))
    && (forall o :: o in res.contents ==> IsDirectChild(prefix, o.key))
  }
}
