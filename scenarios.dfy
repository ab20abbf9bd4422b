/** Concrete runs of the models, checked statically. */
module Scenarios {
  import opened Common
  import opened Analytics
  import AsyncInventory
  import SyncInventory

  /** With a 60-second window, an order tracked at 0 is gone at 61. */
  method OrderGoneAfterWindow() {
    var w := new UniqueOrderWindow(60.0);
    w.Track(Some("A"), 0.0);
    var active := w.ActiveOrders(61.0);
    assert w.entries.Keys == {};
    assert active == 0;
  }

  /** A redelivery inside the TTL is a duplicate; after the TTL it is new again. */
  method RedeliveryWithinTtl() {
    var f := new DuplicateFilter(60.0);
    var first := f.Register("orders:A:d", 0.0);
    assert !first;
    var second := f.Register("orders:A:d", 10.0);
    assert second;
    var late := f.Register("orders:A:d", 100.0);
    assert !late;
  }

  /** The second delivery of an order changes nothing and publishes nothing. */
  method AsyncDuplicateDelivery() {
    var c := new AsyncInventory.InventoryConsumer(map[], map[]);
    var body := AsyncInventory.Decoded(AsyncInventory.OrderPlaced(Some("o-1"), Some("r-1"), Some("pizza"), Some(AsyncInventory.Converts(2))));
    assert "pizza" in AsyncInventory.SeedStock();
    var first := c.Callback(body);
    assert c.inventory["pizza"] == 98;
    var second := c.Callback(body);
    assert second == AsyncInventory.Acked(None);
    assert c.inventory["pizza"] == 98;
  }

  /** A request naming no item looks up `""` and is a 404. */
  method SyncReserveWithoutItem() {
    var s := new SyncInventory.InventoryService();
    var missing := s.HandleReserve(SyncInventory.ReserveRequest(None, None, None, None));
    assert missing.StatusCode() == 404;
  }
}
