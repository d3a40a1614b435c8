/**
 * The seed loader: on a store whose menu table is empty it inserts the
 * fixed catalog below in one bulk operation; otherwise it does nothing.
 */
module Seeder {
  import opened Categories
  import opened Data

  /** A catalog entry as written in the seed list: no identity yet. */
  function Entry(name: string, description: string, price: int, category: Category): (item: MenuItem) {
    MenuItem(0, name, description, price, category)
  }

  /** The milk tea classics. */
  const MilkTeaClassicsEntries: seq<MenuItem> :=
    [
      Entry("Classic Milk Tea", "Traditional black tea with creamy milk", 550, MilkTeaClassics),
      Entry("Brown Sugar Milk Tea", "House-made brown sugar with fresh milk", 600, MilkTeaClassics),
      Entry("Honeydew Milk Tea", "Sweet melon flavor with smooth milk", 575, MilkTeaClassics),
      Entry("Taro Milk Tea", "Creamy taro root with a hint of vanilla", 575, MilkTeaClassics),
      Entry("Matcha Milk Tea", "Premium Japanese matcha with milk", 625, MilkTeaClassics),
      Entry("Thai Milk Tea", "Aromatic Thai tea with condensed milk", 575, MilkTeaClassics),
      Entry("Oolong Milk Tea", "Floral oolong with creamy finish", 550, MilkTeaClassics),
      Entry("Jasmine Milk Tea", "Fragrant jasmine tea with milk", 550, MilkTeaClassics)
    ]

  /** The fruit teas. */
  const FruitTeaEntries: seq<MenuItem> :=
    [
      Entry("Straberry Green Tea", "Fresh strawberries with green tea", 600, FruitTea),
      Entry("Peach Oolong", "Sweet peach with floral oolong", 600, FruitTea),
      Entry("Passion Fruit Tea", "Tangy passion fruit with black tea", 575, FruitTea),
      Entry("Lychee Rose Tea", "Delicate lychee with rose petals", 625, FruitTea),
      Entry("Mango Green Tea", "Tropical mango with jasmine green", 600, FruitTea),
      Entry("Grapefruit Tea", "Citrus grapefruit with honey", 575, FruitTea),
      Entry("Pomegranate Berry", "Mixed berries with pomegranate", 600, FruitTea),
      Entry("Yuzu Citrus Tea", "Japanese yuzu with green tea", 650, FruitTea)
    ]

  /** The cheese teas. */
  const CheeseTeaEntries: seq<MenuItem> :=
    [
      Entry("Cream Cheese Oolong", "Smooth cheese foam on oolong tea", 650, CheeseTea),
      Entry("Jasmine Cheese Tea", "Floral jasmine with cheese cap", 650, CheeseTea),
      Entry("Strawberry Cheese Tea", "Fresh strawberry with cheese foam", 700, CheeseTea),
      Entry("Matcha Cheese Tea", "Premium matcha with cream cheese", 700, CheeseTea),
      Entry("Peach Cheese Tea", "Sweet peach with salted cheese", 700, CheeseTea)
    ]

  /** The special lattes. */
  const SpecialLattesEntries: seq<MenuItem> :=
    [
      Entry("Lavender Latte", "Calming lavender with oat milk", 650, SpecialLattes),
      Entry("Rose Latte", "Delicate rose with steamed milk", 650, SpecialLattes),
      Entry("Butterfly Pea Latte", "Color-changing blue flower latte", 675, SpecialLattes),
      Entry("Hojicha Latte", "Roasted green tea with milk", 625, SpecialLattes),
      Entry("Black Sesame Latte", "Nutty sesame with creamy milk", 650, SpecialLattes),
      Entry("Ube Latte", "Purple yam with vanilla notes", 675, SpecialLattes)
    ]

  /** The seasonal specials. */
  const SeasonalSpecialsEntries: seq<MenuItem> :=
    [
      Entry("Cherry Blossom Tea", "Limited edition sakura infusion", 725, SeasonalSpecials),
      Entry("Osmanthus Oolong", "Fragrant osmanthus flower tea", 675, SeasonalSpecials),
      Entry("White Peach Cream", "Fresh white peach with milk foam", 700, SeasonalSpecials),
      Entry("Elderflower Spritz", "Sparkling elderflower with lemon", 650, SeasonalSpecials),
      Entry("Honey Chrysanthemum", "Soothing flower tea with honey", 625, SeasonalSpecials),
      Entry("Golden Milk", "Turmeric, ginger, and coconut", 675, SeasonalSpecials),
      Entry("Plum Blossom Tea", "Sweet plum with white tea", 650, SeasonalSpecials)
    ]

  /** The seed list, in listed order; prices in cents. */
  const Catalog: seq<MenuItem> :=
    MilkTeaClassicsEntries + FruitTeaEntries + CheeseTeaEntries + SpecialLattesEntries + SeasonalSpecialsEntries

  /** The store after seeding, as a value. */
  function Seeded(t: Tables): (seeded: Tables) {
    if t.menuItems != [] then t
    else t.(menuItems := Numbered(Catalog, t.nextMenuId), nextMenuId := t.nextMenuId + |Catalog|)
  }

  /** `DataSeeder.SeedData(context)`. */
  method SeedData(context: AppDbContext)
    requires context.Valid()
    modifies context
    ensures context.Valid()
    ensures context.State() == Seeded(old(context.State()))
  {
    if context.HasMenuItems() {
      return;
    }
    context.AddMenuItems(Catalog);
  }

  /** The catalog holds 34 entries, none with an identity yet, each with a
      name and a price from 5.50 to 7.25. */
  lemma CatalogShape()
    ensures |Catalog| == 34
    ensures forall i :: 0 <= i < |Catalog| ==> Catalog[i].id == 0
    ensures forall i :: 0 <= i < |Catalog| ==> Catalog[i].name != []
    ensures forall i :: 0 <= i < |Catalog| ==> 550 <= Catalog[i].price <= 725
    ensures forall i :: 0 <= i < |Catalog| ==> Catalog[i].category != MilkTea
  {
  }

  /** The seed list is written in five runs, one per category used. */
  lemma CatalogBlocks()
    ensures |MilkTeaClassicsEntries| == 8 && |FruitTeaEntries| == 8 && |CheeseTeaEntries| == 5
    ensures |SpecialLattesEntries| == 6 && |SeasonalSpecialsEntries| == 7
    ensures forall i :: 0 <= i < |MilkTeaClassicsEntries| ==> MilkTeaClassicsEntries[i].category == MilkTeaClassics
    ensures forall i :: 0 <= i < |FruitTeaEntries| ==> FruitTeaEntries[i].category == FruitTea
    ensures forall i :: 0 <= i < |CheeseTeaEntries| ==> CheeseTeaEntries[i].category == CheeseTea
    ensures forall i :: 0 <= i < |SpecialLattesEntries| ==> SpecialLattesEntries[i].category == SpecialLattes
    ensures forall i :: 0 <= i < |SeasonalSpecialsEntries| ==> SeasonalSpecialsEntries[i].category == SeasonalSpecials
  {
  }

  /** On a non-empty menu table seeding changes nothing at all. */
  lemma SeededNonEmptyUnchanged(t: Tables)
    requires t.menuItems != []
    ensures Seeded(t) == t
  {
  }

  /** On an empty menu table the table afterwards is exactly the catalog, in
      listed order, numbered from the next identity. */
  lemma SeededEmptyIsCatalog(t: Tables)
    requires t.menuItems == []
    ensures |Seeded(t).menuItems| == |Catalog|
    ensures forall i :: 0 <= i < |Catalog| ==>
      Seeded(t).menuItems[i] == Catalog[i].(id := t.nextMenuId + i)
  {
  }

  /** Seeding never touches the orders table or its identities. */
  lemma SeededKeepsOrders(t: Tables)
    ensures Seeded(t).orders == t.orders && Seeded(t).nextOrderId == t.nextOrderId
  {
  }

  /** Seeding twice gives the same store as seeding once. */
  lemma SeededIdempotent(t: Tables)
    ensures Seeded(Seeded(t)) == Seeded(t)
  {
    if t.menuItems == [] {
      assert Seeded(t).menuItems != [] by { CatalogShape(); }
    }
  }

  /** After seeding the menu table is never empty. */
  lemma SeededNotEmpty(t: Tables)
    ensures Seeded(t).menuItems != []
  {
    CatalogShape();
  }
}
