/** The graph nodes and image references that the linker and the media mapper update in place.
    Each class keeps, as constants, the keys that this code only reads and, as variables, the
    keys that it writes. */
module Graph {
  import opened Js

  type NodeId = string

  /** An image reference inside a record: `{ id, src, localFile___NODE }`. */
  class Image {
    /** `image.id`, the media item's source id. */
    const id: Value
    /** `image.src`, the URL of the file. */
    const src: string
    /** `image.localFile___NODE`, the id of the downloaded file node once one is known. */
    var localFile: Option<NodeId>

    constructor (id: Value, src: string, localFile: Option<NodeId>)
      ensures this.id == id && this.src == src && this.localFile == localFile
    {
      this.id := id;
      this.src := src;
      this.localFile := localFile;
    }
  }

  /** A graph node, as produced by `processNode` and later passed to the linker and the mapper. */
  class Node {
    /** `id`, the generated node id. */
    const id: NodeId
    /** `wordpress_id`, the record's source id. */
    const wordpressId: int
    /** `internal.type`. */
    const typeName: string
    /** The `id` of each entry of `categories`, in order. */
    const categories: seq<int>
    /** `images`; a missing or `null` list reads as empty. */
    const images: seq<Image>
    /** `image`; `None` when missing or `null`. */
    const image: Option<Image>
    /** `modified`; `None` when missing. */
    const modified: Option<string>
    /** `categories_connection___NODE`: the node ids of the product's categories. */
    var categoriesConnection: Option<seq<NodeId>>
    /** `products___NODE`: the node ids of the category's products. */
    var productLinks: Option<seq<NodeId>>

    constructor (id: NodeId, wordpressId: int, typeName: string, categories: seq<int>,
                 images: seq<Image>, image: Option<Image>, modified: Option<string>)
      ensures this.id == id && this.wordpressId == wordpressId && this.typeName == typeName
      ensures this.categories == categories && this.images == images && this.image == image
      ensures this.modified == modified
      ensures categoriesConnection == None && productLinks == None
    {
      this.id := id;
      this.wordpressId := wordpressId;
      this.typeName := typeName;
      this.categories := categories;
      this.images := images;
      this.image := image;
      this.modified := modified;
      categoriesConnection := None;
      productLinks := None;
    }
  }
}
