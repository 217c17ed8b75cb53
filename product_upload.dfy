/** The bulk product upload with images (`BulkUploadWithImagesView.post`).

    The request carries a TXT file, a list of images and a list of account
    ids. The TXT file is read as blocks of three lines (title, description,
    price) followed by a blank line; the k-th block takes the k-th image,
    whether or not it is accepted; every accepted product becomes one post
    per selected account. At most ten line errors are returned. */
module ProductUpload {

  import opened Common
  import opened Text

  const MaxShownErrors: nat := 10

  const IncompleteMessage: string := "Incomplete product data (need 3 lines: title, description, price)"
  const MissingFieldsMessage: string := "Missing required fields"
  const InvalidPricePrefix: string := "Invalid price: "

  /** A Python float: a finite number, NaN, or an infinity. */
  datatype Float = Finite(r: real) | NaN | Infinity(negative: bool)

  /** `x < 0` on a float: false for NaN and for positive infinity. */
  predicate Negative(x: Float) {
    (x.Finite? && x.r < 0.0) || (x.Infinity? && x.negative)
  }

  /** Python's `float(text)`, which this model does not spell out: `None`
      stands for the `ValueError` it raises. It accepts "nan" and "inf". */
  type PriceParser = string -> Option<Float>

  /** One entry of `posts_data`. */
  datatype Product = Product(title: string, description: string, price: Float, image: Option<File>)

  /** One entry of `errors`: a 1-based line number and a message. */
  datatype LineError = LineError(line: nat, message: string)

  datatype Verdict = Accepted(product: Product) | Rejected(error: LineError)

  /** A product block: the cursor where it starts, its product index (the
      value of `product_index` when it is read) and what became of it. */
  datatype Block = Block(start: nat, index: nat, verdict: Verdict)

  /** The image that goes with the product at index `k`: matching is by order only. */
  function ImageFor(images: seq<File>, k: nat): Option<File> {
    if k < |images| then Some(images[k]) else None
  }

  /** The three-line block at cursor `i` (0-based), read as product `k`. */
  function Judge(lines: seq<string>, images: seq<File>, parse: PriceParser, i: nat, k: nat): (v: Verdict)
    requires i + 2 < |lines|
  {
    var title, description, priceText := Strip(lines[i]), Strip(lines[i + 1]), Strip(lines[i + 2]);
    if title == "" || description == "" || priceText == "" then
      Rejected(LineError(i + 1, MissingFieldsMessage))
    else match parse(priceText)
      case None => Rejected(LineError(i + 3, InvalidPricePrefix + priceText))
      case Some(price) =>
        if Negative(price) then Rejected(LineError(i + 3, InvalidPricePrefix + priceText))
        else Accepted(Product(title, description, price, ImageFor(images, k)))
  }

  /** A block is accepted exactly when its three stripped lines are
      non-empty and its price parses to a float that is not below zero (zero,
      NaN and positive infinity pass); the product then carries the stripped fields and the image
      of its index. A rejected block is reported at its first line for a
      missing field and at its price line for a bad price. */
  lemma JudgeSpec(lines: seq<string>, images: seq<File>, parse: PriceParser, i: nat, k: nat)
    requires i + 2 < |lines|
    ensures Judge(lines, images, parse, i, k).Accepted? <==>
      Strip(lines[i]) != "" && Strip(lines[i + 1]) != "" && Strip(lines[i + 2]) != "" &&
      parse(Strip(lines[i + 2])).Some? && !Negative(parse(Strip(lines[i + 2])).value)
    ensures Judge(lines, images, parse, i, k).Accepted? ==> Judge(lines, images, parse, i, k).product == Product(Strip(lines[i]), Strip(lines[i + 1]),
      parse(Strip(lines[i + 2])).value, ImageFor(images, k))
    ensures Judge(lines, images, parse, i, k).Rejected? && Judge(lines, images, parse, i, k).error.line == i + 1 ==> Judge(lines, images, parse, i, k).error.message == MissingFieldsMessage
    ensures Judge(lines, images, parse, i, k).Rejected? ==> Judge(lines, images, parse, i, k).error.line == i + 1 || Judge(lines, images, parse, i, k).error.line == i + 3
    ensures Judge(lines, images, parse, i, k).Rejected? && Judge(lines, images, parse, i, k).error.line == i + 3 ==>
      Judge(lines, images, parse, i, k).error.message == InvalidPricePrefix + Strip(lines[i + 2])
  {
  }

  /** A price of "nan" or "inf" passes the judgement, as `float` reads it
      and the comparison with zero does not refuse it, yet no database
      stores it: such a product is accepted and later fails its save. */
  lemma NonFinitePriceAccepted(lines: seq<string>, images: seq<File>, parse: PriceParser, i: nat, k: nat,
                               stores: real -> bool)
    requires i + 2 < |lines| && Strip(lines[i]) != "" && Strip(lines[i + 1]) != "" && Strip(lines[i + 2]) != ""
    requires parse(Strip(lines[i + 2])) == Some(NaN) || parse(Strip(lines[i + 2])) == Some(Infinity(false))
    ensures Judge(lines, images, parse, i, k).Accepted?
    ensures !Storable(Judge(lines, images, parse, i, k).product.price, stores)
  {
  }

  /** The blocks the parser reads from cursor `i` on, the first with product index `k`. */
  function Blocks(lines: seq<string>, images: seq<File>, parse: PriceParser, i: nat, k: nat): seq<Block>
    decreases |lines| - i, 1
  {
    if i >= |lines| then []
    else if Strip(lines[i]) == "" then Blocks(lines, images, parse, i + 1, k)
    else BlocksAt(lines, images, parse, i, k)
  }

  /** The blocks from a cursor `i` that is not on a blank line: an
      incomplete-data error when fewer than three lines remain, and otherwise
      the block at `i` followed by the blocks four lines further on. */
  function BlocksAt(lines: seq<string>, images: seq<File>, parse: PriceParser, i: nat, k: nat): seq<Block>
    requires i < |lines|
    decreases |lines| - i, 0
  {
    if i + 2 >= |lines| then [Block(i, k, Rejected(LineError(i + 1, IncompleteMessage)))]
    else [Block(i, k, Judge(lines, images, parse, i, k))] + Blocks(lines, images, parse, i + 4, k + 1)
  }

  /** The accepted products of `bs`, in order (`posts_data`). */
  function Products(bs: seq<Block>): seq<Product> {
    if bs == [] then []
    else (if bs[0].verdict.Accepted? then [bs[0].verdict.product] else []) + Products(bs[1..])
  }

  /** The errors of `bs`, in order (`errors`). */
  function Errors(bs: seq<Block>): seq<LineError> {
    if bs == [] then []
    else (if bs[0].verdict.Rejected? then [bs[0].verdict.error] else []) + Errors(bs[1..])
  }

  /** The parsing loop. It returns `posts_data` and `errors`, which are the
      accepted products and the errors of the blocks, in file order. */
  method ParseProducts(lines: seq<string>, images: seq<File>, parse: PriceParser)
    returns (posts: seq<Product>, errors: seq<LineError>)
    ensures posts == Products(Blocks(lines, images, parse, 0, 0))
    ensures errors == Errors(Blocks(lines, images, parse, 0, 0))
  {
    posts, errors := [], [];
    var productIndex: nat := 0;
    var i: nat := 0;
    while i < |lines|
      invariant Products(Blocks(lines, images, parse, 0, 0)) == posts + Products(Blocks(lines, images, parse, i, productIndex))
      invariant Errors(Blocks(lines, images, parse, 0, 0)) == errors + Errors(Blocks(lines, images, parse, i, productIndex))
      decreases |lines| - i
    {
      var lineNum := i + 1;
      if Strip(lines[i]) == "" {
        SkipBlank(lines, images, parse, i, productIndex);
        i := i + 1;
        continue;
      }
      if i + 2 >= |lines| {
        Incomplete(lines, images, parse, i, productIndex);
        errors := errors + [LineError(lineNum, IncompleteMessage)];
        break;
      }
      var title, description, priceText := Strip(lines[i]), Strip(lines[i + 1]), Strip(lines[i + 2]);
      if title == "" || description == "" || priceText == "" {
        MissingFields(lines, images, parse, i, productIndex);
        AppendAssoc(errors, [LineError(lineNum, MissingFieldsMessage)], Errors(Blocks(lines, images, parse, i + 4, productIndex + 1)));
        errors := errors + [LineError(lineNum, MissingFieldsMessage)];
        i := i + 4;
        productIndex := productIndex + 1;
        continue;
      }
      var parsed := parse(priceText);
      if parsed.None? || Negative(parsed.value) {
        InvalidPrice(lines, images, parse, i, productIndex);
        AppendAssoc(errors, [LineError(lineNum + 2, InvalidPricePrefix + priceText)], Errors(Blocks(lines, images, parse, i + 4, productIndex + 1)));
        errors := errors + [LineError(lineNum + 2, InvalidPricePrefix + priceText)];
        i := i + 4;
        productIndex := productIndex + 1;
        continue;
      }
      var image: Option<File> := None;
      if images != [] && productIndex < |images| {
        image := Some(images[productIndex]);
      }
      ValidBlock(lines, images, parse, i, productIndex);
      AppendAssoc(posts, [Product(title, description, parsed.value, image)], Products(Blocks(lines, images, parse, i + 4, productIndex + 1)));
      posts := posts + [Product(title, description, parsed.value, image)];
      productIndex := productIndex + 1;
      i := i + 4;
    }
  }

  /** A blank line at the cursor yields neither a product nor an error. */
  lemma SkipBlank(lines: seq<string>, images: seq<File>, parse: PriceParser, i: nat, k: nat)
    requires i < |lines| && Strip(lines[i]) == ""
    ensures Products(Blocks(lines, images, parse, i, k)) == Products(Blocks(lines, images, parse, i + 1, k))
    ensures Errors(Blocks(lines, images, parse, i, k)) == Errors(Blocks(lines, images, parse, i + 1, k))
  {
  }

  /** Fewer than three lines from a non-blank cursor: one error, then nothing. */
  lemma Incomplete(lines: seq<string>, images: seq<File>, parse: PriceParser, i: nat, k: nat)
    requires i < |lines| <= i + 2 && Strip(lines[i]) != ""
    ensures Products(Blocks(lines, images, parse, i, k)) == []
    ensures Errors(Blocks(lines, images, parse, i, k)) == [LineError(i + 1, IncompleteMessage)]
  {
    var b := Block(i, k, Rejected(LineError(i + 1, IncompleteMessage)));
    assert Blocks(lines, images, parse, i, k) == BlocksAt(lines, images, parse, i, k) == [b];
    assert [b][1..] == [];
  }

  /** The products and errors from a full block at a non-blank cursor: the
      block's own verdict, then those from four lines further on. */
  lemma Advance(lines: seq<string>, images: seq<File>, parse: PriceParser, i: nat, k: nat)
    requires i + 2 < |lines| && Strip(lines[i]) != ""
    ensures var v := Judge(lines, images, parse, i, k);
      Products(Blocks(lines, images, parse, i, k)) ==
        (if v.Accepted? then [v.product] else []) + Products(Blocks(lines, images, parse, i + 4, k + 1)) &&
      Errors(Blocks(lines, images, parse, i, k)) ==
        (if v.Rejected? then [v.error] else []) + Errors(Blocks(lines, images, parse, i + 4, k + 1))
  {
    var b := Block(i, k, Judge(lines, images, parse, i, k));
    var rest := Blocks(lines, images, parse, i + 4, k + 1);
    assert Blocks(lines, images, parse, i, k) == BlocksAt(lines, images, parse, i, k) == [b] + rest;
    assert ([b] + rest)[1..] == rest;
  }

  /** A block with an empty field gives a missing-fields error at its first line. */
  lemma MissingFields(lines: seq<string>, images: seq<File>, parse: PriceParser, i: nat, k: nat)
    requires i + 2 < |lines| && Strip(lines[i]) != ""
    requires Strip(lines[i + 1]) == "" || Strip(lines[i + 2]) == ""
    ensures Products(Blocks(lines, images, parse, i, k)) == Products(Blocks(lines, images, parse, i + 4, k + 1))
    ensures Errors(Blocks(lines, images, parse, i, k)) ==
      [LineError(i + 1, MissingFieldsMessage)] + Errors(Blocks(lines, images, parse, i + 4, k + 1))
  {
    Advance(lines, images, parse, i, k);
  }

  /** A block whose price does not parse, or parses to a negative number,
      gives an invalid-price error at its price line. */
  lemma InvalidPrice(lines: seq<string>, images: seq<File>, parse: PriceParser, i: nat, k: nat)
    requires i + 2 < |lines| && Strip(lines[i]) != "" && Strip(lines[i + 1]) != "" && Strip(lines[i + 2]) != ""
    requires parse(Strip(lines[i + 2])).None? || Negative(parse(Strip(lines[i + 2])).value)
    ensures Products(Blocks(lines, images, parse, i, k)) == Products(Blocks(lines, images, parse, i + 4, k + 1))
    ensures Errors(Blocks(lines, images, parse, i, k)) ==
      [LineError(i + 3, InvalidPricePrefix + Strip(lines[i + 2]))] + Errors(Blocks(lines, images, parse, i + 4, k + 1))
  {
    Advance(lines, images, parse, i, k);
  }

  /** A block with non-empty fields and a non-negative price gives a product
      carrying the image of its index. */
  lemma ValidBlock(lines: seq<string>, images: seq<File>, parse: PriceParser, i: nat, k: nat)
    requires i + 2 < |lines| && Strip(lines[i]) != "" && Strip(lines[i + 1]) != "" && Strip(lines[i + 2]) != ""
    requires parse(Strip(lines[i + 2])).Some? && !Negative(parse(Strip(lines[i + 2])).value)
    ensures Products(Blocks(lines, images, parse, i, k)) ==
      [Product(Strip(lines[i]), Strip(lines[i + 1]), parse(Strip(lines[i + 2])).value, ImageFor(images, k))] +
      Products(Blocks(lines, images, parse, i + 4, k + 1))
    ensures Errors(Blocks(lines, images, parse, i, k)) == Errors(Blocks(lines, images, parse, i + 4, k + 1))
  {
    Advance(lines, images, parse, i, k);
  }

  /** Each block has exactly one of a product and an error. */
  lemma {:induction false} ProductsAndErrors(bs: seq<Block>)
    ensures |Products(bs)| + |Errors(bs)| == |bs|
  {
    if bs != [] {
      ProductsAndErrors(bs[1..]);
    }
  }

  /** Product indices count up from `k` with no gaps, so a rejected block
      still uses up its image, and every block starts on a non-blank line at
      or after the cursor `i`. */
  predicate Indexed(bs: seq<Block>, lines: seq<string>, i: nat, k: nat) {
    forall j :: 0 <= j < |bs| ==>
      bs[j].index == k + j && i <= bs[j].start < |lines| && Strip(lines[bs[j].start]) != ""
  }

  /** A later block starts at least four lines after an earlier one. */
  predicate Spaced(bs: seq<Block>) {
    forall j, j' :: 0 <= j < j' < |bs| ==> bs[j].start + 4 <= bs[j'].start
  }

  /** A full block at a non-blank cursor comes first, and the blocks from
      four lines further on follow it. */
  lemma BlocksHead(lines: seq<string>, images: seq<File>, parse: PriceParser, i: nat, k: nat)
    requires i + 2 < |lines| && Strip(lines[i]) != ""
    ensures var bs := Blocks(lines, images, parse, i, k);
      |bs| >= 1 && bs[0].start == i && bs[0].index == k && bs[1..] == Blocks(lines, images, parse, i + 4, k + 1)
  {
    var rest := Blocks(lines, images, parse, i + 4, k + 1);
    assert Blocks(lines, images, parse, i, k) == BlocksAt(lines, images, parse, i, k)
      == [Block(i, k, Judge(lines, images, parse, i, k))] + rest;
  }

  lemma {:induction false} BlocksIndexed(lines: seq<string>, images: seq<File>, parse: PriceParser, i: nat, k: nat)
    ensures Indexed(Blocks(lines, images, parse, i, k), lines, i, k)
    decreases |lines| - i
  {
    if i < |lines| {
      if Strip(lines[i]) == "" {
        BlocksIndexed(lines, images, parse, i + 1, k);
        assert Blocks(lines, images, parse, i, k) == Blocks(lines, images, parse, i + 1, k);
      } else if i + 2 < |lines| {
        BlocksIndexed(lines, images, parse, i + 4, k + 1);
        BlocksHead(lines, images, parse, i, k);
        var bs := Blocks(lines, images, parse, i, k);
        var rest := Blocks(lines, images, parse, i + 4, k + 1);
        forall j | 0 < j < |bs| ensures bs[j] == rest[j - 1] { }
      }
    }
  }

  lemma {:induction false} BlocksSpaced(lines: seq<string>, images: seq<File>, parse: PriceParser, i: nat, k: nat)
    ensures Spaced(Blocks(lines, images, parse, i, k))
    decreases |lines| - i
  {
    if i < |lines| {
      if Strip(lines[i]) == "" {
        BlocksSpaced(lines, images, parse, i + 1, k);
        assert Blocks(lines, images, parse, i, k) == Blocks(lines, images, parse, i + 1, k);
      } else if i + 2 < |lines| {
        BlocksSpaced(lines, images, parse, i + 4, k + 1);
        var bs := Blocks(lines, images, parse, i, k);
        var rest := Blocks(lines, images, parse, i + 4, k + 1);
        BlocksIndexed(lines, images, parse, i + 4, k + 1);
        BlocksHead(lines, images, parse, i, k);
        forall j, j' | 0 <= j < j' < |bs| ensures bs[j].start + 4 <= bs[j'].start {
          assert bs[j'] == rest[j' - 1];
          if j > 0 {
            assert bs[j] == rest[j - 1];
          }
        }
      }
    }
  }

  /** What each block holds: an incomplete-data error numbered at its first
      line when fewer than three lines remain, and otherwise the verdict on
      its three lines. */
  predicate Judged(bs: seq<Block>, lines: seq<string>, images: seq<File>, parse: PriceParser) {
    forall j :: 0 <= j < |bs| ==>
      if bs[j].start + 2 < |lines| then bs[j].verdict == Judge(lines, images, parse, bs[j].start, bs[j].index)
      else bs[j].verdict == Rejected(LineError(bs[j].start + 1, IncompleteMessage)) && j == |bs| - 1
  }

  lemma {:induction false} BlockVerdicts(lines: seq<string>, images: seq<File>, parse: PriceParser, i: nat, k: nat)
    ensures Judged(Blocks(lines, images, parse, i, k), lines, images, parse)
    decreases |lines| - i
  {
    if i < |lines| {
      if Strip(lines[i]) == "" {
        BlockVerdicts(lines, images, parse, i + 1, k);
        assert Blocks(lines, images, parse, i, k) == Blocks(lines, images, parse, i + 1, k);
      } else if i + 2 < |lines| {
        BlockVerdicts(lines, images, parse, i + 4, k + 1);
        var bs := Blocks(lines, images, parse, i, k);
        var rest := Blocks(lines, images, parse, i + 4, k + 1);
        assert bs == BlocksAt(lines, images, parse, i, k) == [Block(i, k, Judge(lines, images, parse, i, k))] + rest;
        forall j | 0 < j < |bs| ensures bs[j] == rest[j - 1] { }
      }
    }
  }

  /** Images go by order: the j-th block of the file, if accepted, carries
      `images[j]` when there are more than j images and no image otherwise. */
  lemma ImageByOrder(lines: seq<string>, images: seq<File>, parse: PriceParser, j: nat)
    requires j < |Blocks(lines, images, parse, 0, 0)|
    requires Blocks(lines, images, parse, 0, 0)[j].verdict.Accepted?
    ensures Blocks(lines, images, parse, 0, 0)[j].verdict.product.image ==
      if j < |images| then Some(images[j]) else None
  {
    BlocksIndexed(lines, images, parse, 0, 0);
    BlockVerdicts(lines, images, parse, 0, 0);
  }

  // ---------------------------------------------------------------------
  // Creating the posts

  type AccountId = int

  /** A row of `MarketplacePost` as the view creates it (the scheduled time,
      `timezone.now()`, is not modelled). */
  datatype NewPost = NewPost(account: AccountId, title: string, description: string,
                             price: Float, image: Option<File>, posted: bool)

  function PostFor(p: Product, account: AccountId): NewPost {
    NewPost(account, p.title, p.description, p.price, p.image, false)
  }

  /** The posts for one product, one per account in order. */
  function Row(p: Product, accounts: seq<AccountId>): seq<NewPost> {
    seq(|accounts|, j requires 0 <= j < |accounts| => PostFor(p, accounts[j]))
  }

  /** The posts for every product and account, product-major. */
  function CrossProduct(products: seq<Product>, accounts: seq<AccountId>): seq<NewPost> {
    if products == [] then []
    else CrossProduct(products[..|products| - 1], accounts) + Row(products[|products| - 1], accounts)
  }

  lemma MulStep(n: nat, m: nat, p: nat, a: nat)
    requires p < n && a < m
    ensures (n - 1) * m + m == n * m
    ensures p < n - 1 ==> p * m + a < (n - 1) * m
    ensures p == n - 1 ==> p * m + a - (n - 1) * m == a
  {
    if p < n - 1 {
      assert p * m + a < p * m + m == (p + 1) * m;
      assert (p + 1) * m <= (n - 1) * m;
    }
  }

  /** Cell `(p, a)` of `n` rows of `|row|` cells, the last row appended. */
  lemma ConcatCell<T>(head: seq<T>, row: seq<T>, n: nat, p: nat, a: nat)
    requires |head| == (n - 1) * |row| && p < n && a < |row|
    ensures p < n - 1 ==> p * |row| + a < |head|
    ensures p < n - 1 ==> (head + row)[p * |row| + a] == head[p * |row| + a]
    ensures p == n - 1 ==> (head + row)[p * |row| + a] == row[a]
  {
    MulStep(n, |row|, p, a);
  }

  lemma {:induction false} CrossProductLength(products: seq<Product>, accounts: seq<AccountId>)
    ensures |CrossProduct(products, accounts)| == |products| * |accounts|
  {
    if products != [] {
      CrossProductLength(products[..|products| - 1], accounts);
      assert (|products| - 1) * |accounts| + |accounts| == |products| * |accounts|;
    }
  }

  /** The post at one product and account. */
  lemma {:induction false} CrossProductCell(products: seq<Product>, accounts: seq<AccountId>, p: nat, a: nat)
    requires p < |products| && a < |accounts|
    ensures p * |accounts| + a < |CrossProduct(products, accounts)|
    ensures CrossProduct(products, accounts)[p * |accounts| + a] == PostFor(products[p], accounts[a])
  {
    var n := |products|;
    var front := products[..n - 1];
    var head, row := CrossProduct(front, accounts), Row(products[n - 1], accounts);
    assert CrossProduct(products, accounts) == head + row;
    CrossProductLength(front, accounts);
    ConcatCell(head, row, n, p, a);
    if p < n - 1 {
      CrossProductCell(front, accounts, p, a);
      assert products[p] == front[p];
    }
  }

  /** There is one post per product and account: the post for product `p`
      and account `a` sits at `p * |accounts| + a`. */
  lemma {:induction false} CrossProductIndex(products: seq<Product>, accounts: seq<AccountId>)
    ensures |CrossProduct(products, accounts)| == |products| * |accounts|
    ensures forall p, a :: 0 <= p < |products| && 0 <= a < |accounts| ==>
      CrossProduct(products, accounts)[p * |accounts| + a] == PostFor(products[p], accounts[a])
  {
    var all := CrossProduct(products, accounts);
    forall p, a | 0 <= p < |products| && 0 <= a < |accounts|
      ensures p * |accounts| + a < |all| && all[p * |accounts| + a] == PostFor(products[p], accounts[a])
    {
      CrossProductCell(products, accounts, p, a);
    }
    CrossProductLength(products, accounts);
  }

  /** Whether saving a post stores its price. The column is a
      `DecimalField(max_digits=10, decimal_places=2)`: NaN and the
      infinities always raise; whether a finite price out of the column's
      range raises is up to the database backend, given as `stores`. */
  predicate Storable(price: Float, stores: real -> bool) {
    price.Finite? && stores(price.r)
  }

  /** The index of the first product whose price cannot be stored, or the
      number of products when every price can. */
  function FirstUnstorable(products: seq<Product>, stores: real -> bool): (f: nat)
    ensures f <= |products|
    ensures forall q :: 0 <= q < f ==> Storable(products[q].price, stores)
    ensures f < |products| ==> !Storable(products[f].price, stores)
  {
    if products == [] then 0
    else if !Storable(products[0].price, stores) then 0
    else 1 + FirstUnstorable(products[1..], stores)
  }

  /** The creation loops. Every accepted product is posted once to every
      account, product by product, and `success_count` counts the posts.
      Creating a post whose price cannot be stored raises: the loops stop
      there, and the posts already created stay written. */
  method CreatePosts(products: seq<Product>, accounts: seq<AccountId>, stores: real -> bool)
    returns (created: seq<NewPost>, successCount: nat, failure: Option<Float>)
    ensures var f := FirstUnstorable(products, stores);
      if f < |products| && accounts != [] then
        failure == Some(products[f].price) && created == CrossProduct(products[..f], accounts)
      else
        failure == None && created == CrossProduct(products, accounts)
    ensures failure.None? ==> successCount == |created| == |products| * |accounts|
  {
    created, successCount, failure := [], 0, None;
    for p := 0 to |products|
      invariant created == CrossProduct(products[..p], accounts)
      invariant successCount == |created|
      invariant accounts != [] ==> forall q :: 0 <= q < p ==> Storable(products[q].price, stores)
    {
      assert products[..p + 1][..p] == products[..p];
      for a := 0 to |accounts|
        invariant created == CrossProduct(products[..p], accounts) + Row(products[p], accounts[..a])
        invariant successCount == |created|
        invariant a > 0 ==> Storable(products[p].price, stores)
      {
        if !Storable(products[p].price, stores) {
          assert accounts[..a] == [];
          assert Row(products[p], []) == [];
          return created, successCount, Some(products[p].price);
        }
        assert Row(products[p], accounts[..a + 1]) == Row(products[p], accounts[..a]) + [PostFor(products[p], accounts[a])];
        created := created + [PostFor(products[p], accounts[a])];
        successCount := successCount + 1;
      }
      assert accounts[..|accounts|] == accounts;
    }
    assert products[..|products|] == products;
    CrossProductIndex(products, accounts);
  }

  // ---------------------------------------------------------------------
  // The response

  /** The errors the reply shows, and the `additional_errors` count when
      there are more than ten. */
  function Truncate(errors: seq<LineError>): (r: (seq<LineError>, Option<nat>))
    ensures |r.0| <= MaxShownErrors && |r.0| <= |errors| && r.0 == errors[..|r.0|]
    ensures r.1.Some? <==> |errors| > MaxShownErrors
    ensures r.1.Some? ==> |r.0| + r.1.value == |errors|
    ensures r.1.None? ==> r.0 == errors
  {
    if |errors| > MaxShownErrors then
      var additional: nat := |errors| - MaxShownErrors;
      (errors[..MaxShownErrors], Some(additional))
    else (errors, None)
  }

  /** The TXT part of the request: absent, not valid UTF-8, or its text. */
  datatype TxtUpload = NoTxtFile | Undecodable | Txt(text: string)

  datatype Request = Request(txt: TxtUpload, images: seq<File>, accountIds: seq<string>)

  /** Why the view answers 400 before any post is created. */
  datatype UploadError =
    | TxtRequired              // 'TXT file is required'
    | NoAccountSelected        // 'At least one account must be selected'
    | NoValidAccounts          // 'No valid accounts found'
    | AccountLookupFailed(badId: string)  // 'Error fetching accounts: ...', an id that is not an integer
    | TxtUnreadable            // 'Error processing TXT file: ...', the file is not UTF-8
    | PriceNotStored(price: Float)  // 'Error processing TXT file: ...', raised by a post's save

  datatype Stats = Stats(successCount: nat, errorCount: nat, numPosts: nat, numAccounts: nat)

  datatype Reply =
    | BadRequest(error: UploadError)
    | Created(message: string, stats: Stats, errors: seq<LineError>, additionalErrors: Option<nat>)

  datatype IdLookup = BadId(id: string) | Ids(ids: seq<int>)

  /** The ids as the primary-key lookup converts them: the first that is not
      an integer fails the query. */
  function ParseIds(ids: seq<string>): IdLookup
  {
    if ids == [] then Ids([])
    else match ParseInt(ids[0])
      case None => BadId(ids[0])
      case Some(n) =>
        var rest := ParseIds(ids[1..]);
        if rest.BadId? then rest
        else Ids([n] + rest.ids)
  }

  /** Ids written out as decimal text are read back by the lookup exactly,
      in order. */
  lemma {:induction false} ParseIdsOfWritten(ids: seq<int>)
    ensures ParseIds(Map(ids, IntToString)) == Ids(ids)
  {
    if ids != [] {
      var written := Map(ids, IntToString);
      IntRoundTrip(ids[0]);
      assert written[0] == IntToString(ids[0]);
      assert written[1..] == Map(ids[1..], IntToString);
      ParseIdsOfWritten(ids[1..]);
      assert ParseIds(written) == Ids([ids[0]] + ids[1..]);
      assert [ids[0]] + ids[1..] == ids;
    }
  }

  /** The accounts of the table (in table order) whose id was requested. */
  function Matching(table: seq<AccountId>, ids: seq<int>): (r: seq<AccountId>)
    ensures forall j :: 0 <= j < |r| ==> r[j] in table && r[j] in ids
    ensures forall j :: 0 <= j < |table| && table[j] in ids ==> table[j] in r
  {
    Filter(table, (a: AccountId) => a in ids)
  }

  /** The accepted products of a decoded TXT file: its stripped text split
      into lines, read block by block. */
  function ProductsOf(text: string, images: seq<File>, parse: PriceParser): seq<Product> {
    Products(Blocks(Split(Strip(text), '\n'), images, parse, 0, 0))
  }

  /** The line errors of a decoded TXT file. */
  function ErrorsOf(text: string, images: seq<File>, parse: PriceParser): seq<LineError> {
    Errors(Blocks(Split(Strip(text), '\n'), images, parse, 0, 0))
  }

  /** `BulkUploadWithImagesView.post`. The table is the account ids in the
      database; `created` is the list of posts written to the database. */
  method Upload(req: Request, table: seq<AccountId>, parse: PriceParser, stores: real -> bool)
    returns (reply: Reply, created: seq<NewPost>)
    ensures req.txt.NoTxtFile? ==> reply == BadRequest(TxtRequired) && created == []
    ensures !req.txt.NoTxtFile? && req.accountIds == [] ==>
      reply == BadRequest(NoAccountSelected) && created == []
    ensures !req.txt.NoTxtFile? && req.accountIds != [] && ParseIds(req.accountIds).BadId? ==>
      reply == BadRequest(AccountLookupFailed(ParseIds(req.accountIds).id)) && created == []
    ensures (!req.txt.NoTxtFile? && req.accountIds != [] && ParseIds(req.accountIds).Ids? &&
             Matching(table, ParseIds(req.accountIds).ids) == []) ==>
      reply == BadRequest(NoValidAccounts) && created == []
    ensures (req.txt.Undecodable? && req.accountIds != [] && ParseIds(req.accountIds).Ids? &&
             Matching(table, ParseIds(req.accountIds).ids) != []) ==>
      reply == BadRequest(TxtUnreadable) && created == []
    ensures req.txt.Txt? && req.accountIds != [] && ParseIds(req.accountIds).Ids? ==>
      var accounts := Matching(table, ParseIds(req.accountIds).ids);
      var products := ProductsOf(req.txt.text, req.images, parse);
      var f := FirstUnstorable(products, stores);
      accounts != [] && f < |products| ==>
        reply == BadRequest(PriceNotStored(products[f].price)) &&
        created == CrossProduct(products[..f], accounts)
    ensures req.txt.Txt? && req.accountIds != [] && ParseIds(req.accountIds).Ids? ==>
      var accounts := Matching(table, ParseIds(req.accountIds).ids);
      var products := ProductsOf(req.txt.text, req.images, parse);
      var errors := ErrorsOf(req.txt.text, req.images, parse);
      accounts != [] && FirstUnstorable(products, stores) == |products| ==>
        created == CrossProduct(products, accounts) &&
        reply.Created? &&
        reply.message == "Created " + NatToString(|created|) + " posts!" &&
        |created| == |products| * |accounts| &&
        reply.stats == Stats(|created|, |errors|, |products|, |accounts|) &&
        (reply.errors, reply.additionalErrors) == Truncate(errors)
  {
    created := [];
    if req.txt.NoTxtFile? {
      return BadRequest(TxtRequired), created;
    }
    if req.accountIds == [] {
      return BadRequest(NoAccountSelected), created;
    }
    var lookup := ParseIds(req.accountIds);
    if lookup.BadId? {
      return BadRequest(AccountLookupFailed(lookup.id)), created;
    }
    var accounts := Matching(table, lookup.ids);
    if accounts == [] {
      return BadRequest(NoValidAccounts), created;
    }
    if req.txt.Undecodable? {
      return BadRequest(TxtUnreadable), created;
    }
    var lines := Split(Strip(req.txt.text), '\n');
    var posts, errors := ParseProducts(lines, req.images, parse);
    var successCount, failure;
    created, successCount, failure := CreatePosts(posts, accounts, stores);
    if failure.Some? {
      return BadRequest(PriceNotStored(failure.value)), created;
    }
    var shown := Truncate(errors);
    reply := Created("Created " + NatToString(successCount) + " posts!",
                     Stats(successCount, |errors|, |posts|, |accounts|), shown.0, shown.1);
  }
}
