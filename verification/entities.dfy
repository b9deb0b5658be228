/** The records the storefront handles, as the backend delivers them and as
    the cart stores them. Money is integer cents; times are epoch milliseconds. */
module Entities {
  import opened Common

  /** The logged-in user: `{ id, name, email, role }`. */
  datatype User = User(id: int, name: string, email: string, role: string)

  /** A catalogue product. `category` may be missing (`undefined`/`null`). */
  datatype Product = Product(
    id: int,
    name: string,
    description: string,
    price: int,
    category: Option<string>,
    size: string,
    color: string,
    imageUrl: string)

  /** A cart line: every field of the product plus a quantity (`{ ...product, quantity }`). */
  datatype Line = Line(product: Product, quantity: int)

  /** An order as the admin orders endpoint reports it; only the fields the
      pages read are kept. `createdAt` is `created_at` as a timestamp. */
  datatype Order = Order(id: int, userName: string, totalAmount: int, status: string, createdAt: int)
}

/** Browser `localStorage`, holding values already decoded from their JSON text,
    and the four keys the storefront uses. */
module Storage {
  import opened Entities

  /** A stored value: plain text, or the JSON of a user or of a cart. */
  datatype Value = Text(text: string) | UserJson(user: User) | CartJson(lines: seq<Line>)

  type Store = map<string, Value>

  const TokenKey: string := "token"
  const UserKey: string := "user"
  const CartKey: string := "cart"
  const WatermarkKey: string := "lastNotificationCheck"

  /** The keys a logout clears. */
  const SessionKeys: set<string> := {TokenKey, UserKey, CartKey, WatermarkKey}

  /** The four keys are different strings. */
  lemma KeysDistinct()
    ensures TokenKey != UserKey && TokenKey != CartKey && TokenKey != WatermarkKey
    ensures UserKey != CartKey && UserKey != WatermarkKey && CartKey != WatermarkKey
  {
    assert TokenKey[0] == 't' && UserKey[0] == 'u' && CartKey[0] == 'c' && WatermarkKey[0] == 'l';
  }

  /** Each known key holds the shape its writer stores there, so every
      `JSON.parse` of it succeeds. */
  predicate Typed(st: Store)
  {
    && (TokenKey in st ==> st[TokenKey].Text?)
    && (UserKey in st ==> st[UserKey].UserJson?)
    && (CartKey in st ==> st[CartKey].CartJson?)
    && (WatermarkKey in st ==> st[WatermarkKey].Text?)
  }
}
