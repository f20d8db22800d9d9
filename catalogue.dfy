/** The storefront's product records and its fixed, hard-coded catalogue. */
module Catalogue {

  /** The three shop sections: 'Мужское' (menswear), 'Женское' (womenswear)
      and 'Другое' (everything else). */
  datatype Category = Mens | Womens | Other

  /** A catalogue entry. The image, the size and colour lists and the
      limited-stock count are display-only and not part of the record. */
  datatype Product = Product(id: string, name: string, price: nat, category: Category, exclusive: bool)

  // The sixteen products of the storefront.
  const M1 := Product("m1", "Футболка Классика", 5000, Mens, false)
  const M2 := Product("m2", "Футболка Премиум", 5000, Mens, false)
  const M3 := Product("m3", "Футболка Дизайн", 5000, Mens, false)
  const M4 := Product("m4", "Часы BASTET Empire Times", 5000, Mens, false)
  const M5 := Product("m5", "Худи с капюшоном", 15000, Mens, true)
  const M6 := Product("m6", "Футболка Лимитед", 5000, Mens, true)
  const M7 := Product("m7", "Джинсы Классик", 100000, Mens, false)
  const M8 := Product("m8", "Полотенце с логотипом", 2000, Mens, false)
  const W1 := Product("w1", "Худи Ёлочка", 15000, Womens, true)
  const W2 := Product("w2", "Платье Эксклюзив", 100000, Womens, true)
  const W3 := Product("w3", "Часы Премиум", 100000, Womens, true)
  const O1 := Product("o1", "Шоппер", 2500, Other, false)
  const O2 := Product("o2", "Брелок Стандарт", 500, Other, false)
  const O3 := Product("o3", "Брелок Баста", 5000, Other, true)
  const Set1 := Product("set1", "Набор Стандарт", 20000, Other, false)
  const Set2 := Product("set2", "Набор Премиум", 50000, Other, true)

  /** The catalogue, in catalogue order. */
  const Products: seq<Product> := [
    M1, M2, M3, M4, M5, M6, M7, M8,
    W1, W2, W3, O1, O2, O3, Set1, Set2
  ]

  /** No two entries in `s` share an id. */
  ghost predicate UniqueIds(s: seq<Product>) {
    forall i, j :: 0 <= i < j < |s| ==> s[i].id != s[j].id
  }

  /** The catalogue identifies every product by its id. */
  lemma CatalogueIdsUnique()
    ensures |Products| == 16 && UniqueIds(Products)
  {
  }

  /** The catalogue lists the menswear first. */
  lemma CatalogueSections()
    ensures Products == [M1, M2, M3, M4, M5, M6, M7, M8] + [W1, W2, W3, O1, O2, O3, Set1, Set2]
  {
  }
}
