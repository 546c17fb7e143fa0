/** The item record that the server stores and returns as JSON and that the
    client keeps in its list. Fields taken from a request body that the
    request did not carry are `undefined` in the server and are modelled as
    `None`; `images` is always present because the server always builds it. */
module Items {
  import opened Text

  datatype Item = Item(
    name: Option<string>,
    itemType: Option<string>,
    description: Option<string>,
    coverImage: Option<string>,
    images: seq<string>)
}
